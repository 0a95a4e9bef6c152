/** Class structures in memory and what their link fields mean.

    `subclass_list` and `sibling_class` serve twice: on an unresolved class they are
    the next and previous links of the list of unresolved classes, on a resolved
    class they thread its subclasses. */
module Hierarchy {
  import opened Basics

  datatype Class = Class(
    isa: nat,
    super: Option<nat>,
    subclassList: Option<nat>,
    siblingClass: Option<nat>,
    resolved: bool,
    meta: bool)

  type Store = map<nat, Class>

  /** Classes and metaclasses come in pairs; `owner` maps a metaclass to its class. */
  ghost predicate PairOk(cls: Store, owner: map<nat, nat>, c: nat)
    requires c in cls
  {
    && cls[c].isa in cls
    && cls[cls[c].isa].meta
    && if cls[c].meta
       then c in owner && owner[c] in cls && !cls[owner[c]].meta && cls[owner[c]].isa == c
       else cls[c].isa in owner && owner[cls[c].isa] == c && cls[cls[c].isa].resolved == cls[c].resolved
  }

  ghost predicate Pairs(cls: Store, owner: map<nat, nat>) {
    forall c {:trigger PairOk(cls, owner, c)} :: c in cls ==> PairOk(cls, owner, c)
  }

  /** Superclass chains end; superclasses of resolved classes are resolved; a class's
      superclass is a class. */
  ghost predicate SuperOk(cls: Store, rank: map<nat, nat>, c: nat)
    requires c in cls
  {
    && c in rank
    && match cls[c].super
       case None => true
       case Some(s) =>
         && s in cls && s in rank && rank[s] < rank[c]
         && (cls[c].resolved ==> cls[s].resolved)
         && (!cls[c].meta ==> !cls[s].meta)
  }

  ghost predicate Ranked(cls: Store, rank: map<nat, nat>) {
    forall c {:trigger SuperOk(cls, rank, c)} :: c in cls ==> SuperOk(cls, rank, c)
  }

  function HeadOf(xs: seq<nat>): Option<nat> {
    if xs == [] then None else Some(xs[0])
  }

  function After(xs: seq<nat>, i: int): Option<nat>
    requires 0 <= i < |xs|
  {
    if i + 1 < |xs| then Some(xs[i + 1]) else None
  }

  function Before(xs: seq<nat>, i: int): Option<nat>
    requires 0 <= i < |xs|
  {
    if i > 0 then Some(xs[i - 1]) else None
  }

  /** Element `i` of the doubly linked list of classes waiting to be resolved. */
  ghost predicate WaitOk(cls: Store, pending: seq<nat>, i: nat)
    requires i < |pending|
  {
    && pending[i] in cls && !cls[pending[i]].resolved && !cls[pending[i]].meta
    && cls[pending[i]].subclassList == After(pending, i)
    && cls[pending[i]].siblingClass == Before(pending, i)
  }

  ghost predicate Waiting(cls: Store, head: Option<nat>, pending: seq<nat>) {
    && head == HeadOf(pending)
    && Distinct(pending)
    && forall i {:trigger WaitOk(cls, pending, i)} :: 0 <= i < |pending| ==> WaitOk(cls, pending, i)
  }

  /** An unresolved structure that is on no list has no links. */
  ghost predicate IdleOk(cls: Store, pending: seq<nat>, c: nat)
    requires c in cls
  {
    !cls[c].resolved && c !in pending ==> cls[c].subclassList == None && cls[c].siblingClass == None
  }

  ghost predicate Idle(cls: Store, pending: seq<nat>) {
    forall c {:trigger IdleOk(cls, pending, c)} :: c in cls ==> IdleOk(cls, pending, c)
  }

  /** The subclasses of `p`, in list order. */
  ghost predicate Threaded(cls: Store, p: nat, xs: seq<nat>)
    requires p in cls
  {
    && (cls[p].resolved ==> cls[p].subclassList == HeadOf(xs))
    && (!cls[p].resolved ==> xs == [])
    && Distinct(xs)
    && forall i {:trigger SiblingOk(cls, xs, i)} :: 0 <= i < |xs| ==> SiblingOk(cls, xs, i)
  }

  ghost predicate SiblingOk(cls: Store, xs: seq<nat>, i: nat)
    requires i < |xs|
  {
    xs[i] in cls && cls[xs[i]].siblingClass == After(xs, i)
  }

  /** Every resolved class with a superclass is in its superclass's list and in no
      other; only the classes in `detached` are in none. */
  ghost predicate Forest(cls: Store, kids: map<nat, seq<nat>>, detached: set<nat>) {
    && kids.Keys == cls.Keys
    && (forall d :: d in detached ==> d in cls && cls[d].resolved)
    && (forall p {:trigger Threaded(cls, p, kids[p])} :: p in cls ==> Threaded(cls, p, kids[p]))
    && forall p, c {:trigger c in kids[p]} :: p in cls ==> (c in kids[p] <==> IsKid(cls, detached, p, c))
  }

  ghost predicate IsKid(cls: Store, detached: set<nat>, p: nat, c: nat) {
    c in cls && cls[c].resolved && cls[c].super == Some(p) && c !in detached
  }

  /** One half of the metaclass square: the superclass of a metaclass is the
      superclass's metaclass, or the class itself for a root. */
  ghost predicate MetaSuperOk(cls: Store, c: nat)
    requires c in cls
  {
    !cls[c].meta && cls[c].resolved ==>
      && cls[c].isa in cls
      && match cls[c].super
         case None => cls[cls[c].isa].super == Some(c)
         case Some(s) => s in cls && cls[cls[c].isa].super == Some(cls[s].isa)
  }

  ghost predicate MetaSupers(cls: Store) {
    forall c {:trigger MetaSuperOk(cls, c)} :: c in cls ==> MetaSuperOk(cls, c)
  }

  ghost function Root(cls: Store, rank: map<nat, nat>, c: nat): (r: nat)
    requires Ranked(cls, rank) && c in cls
    ensures r in cls && cls[r].super == None
    decreases if c in rank then rank[c] else 0
  {
    assert SuperOk(cls, rank, c);
    match cls[c].super
    case None => c
    case Some(s) => Root(cls, rank, s)
  }

  /** `d` is `x` or below it. */
  ghost predicate Desc(cls: Store, rank: map<nat, nat>, d: nat, x: nat)
    requires Ranked(cls, rank) && d in cls
    decreases if d in rank then rank[d] else 0
  {
    assert SuperOk(cls, rank, d);
    d == x || (cls[d].super.Some? && Desc(cls, rank, cls[d].super.value, x))
  }

  lemma {:induction false} DescUp(cls: Store, rank: map<nat, nat>, d: nat, x: nat)
    requires Ranked(cls, rank) && d in cls && Desc(cls, rank, d, x)
    ensures x in cls && x in rank && d in rank && rank[x] <= rank[d]
    ensures !cls[d].meta ==> !cls[x].meta
    ensures cls[d].resolved ==> cls[x].resolved
    decreases if d in rank then rank[d] else 0
  {
    assert SuperOk(cls, rank, d);
    if d != x { DescUp(cls, rank, cls[d].super.value, x); }
  }

  lemma {:induction false} DescTrans(cls: Store, rank: map<nat, nat>, d: nat, x: nat, y: nat)
    requires Ranked(cls, rank) && d in cls && x in cls && Desc(cls, rank, d, x) && Desc(cls, rank, x, y)
    ensures Desc(cls, rank, d, y)
    decreases if d in rank then rank[d] else 0
  {
    assert SuperOk(cls, rank, d);
    if d != x { DescTrans(cls, rank, cls[d].super.value, x, y); }
  }

  /** Being below `x` depends only on the superclasses of the classes above `d`. */
  lemma {:induction false} DescSame(cls: Store, rank: map<nat, nat>, cls': Store, rank': map<nat, nat>, d: nat, x: nat)
    requires Ranked(cls, rank) && Ranked(cls', rank') && d in cls && cls.Keys == cls'.Keys
    requires forall e {:trigger Desc(cls, rank, d, e)} :: e in cls && Desc(cls, rank, d, e) ==> cls'[e].super == cls[e].super
    ensures Desc(cls, rank, d, x) <==> Desc(cls', rank', d, x)
    decreases if d in rank then rank[d] else 0
  {
    assert SuperOk(cls, rank, d) && Desc(cls, rank, d, d);
    if d != x && cls[d].super.Some? {
      forall e | e in cls && Desc(cls, rank, cls[d].super.value, e) ensures cls'[e].super == cls[e].super {
        assert Desc(cls, rank, d, e);
      }
      DescSame(cls, rank, cls', rank', cls[d].super.value, x);
    }
  }

  /** The other half: the metaclass of a metaclass is the root class's metaclass. */
  ghost predicate MetaRootOk(cls: Store, rank: map<nat, nat>, c: nat)
    requires Ranked(cls, rank) && c in cls
  {
    !cls[c].meta && cls[c].resolved ==>
      cls[c].isa in cls && cls[cls[c].isa].isa == cls[Root(cls, rank, c)].isa
  }

  ghost predicate MetaRoots(cls: Store, rank: map<nat, nat>)
    requires Ranked(cls, rank)
  {
    forall c {:trigger MetaRootOk(cls, rank, c)} :: c in cls ==> MetaRootOk(cls, rank, c)
  }

  ghost predicate Core(cls: Store, rank: map<nat, nat>, owner: map<nat, nat>, head: Option<nat>,
                       pending: seq<nat>, kids: map<nat, seq<nat>>, detached: set<nat>) {
    && Pairs(cls, owner)
    && Ranked(cls, rank)
    && Waiting(cls, head, pending)
    && Idle(cls, pending)
    && Forest(cls, kids, detached)
  }

  /** Only link fields differ. */
  ghost predicate SameShape(cls: Store, cls': Store) {
    && cls'.Keys == cls.Keys
    && forall c {:trigger cls'[c]} :: c in cls ==>
         cls'[c] == cls[c].(subclassList := cls'[c].subclassList, siblingClass := cls'[c].siblingClass)
  }

  /** Only the links of unresolved structures differ. */
  ghost predicate LinksOnly(cls: Store, cls': Store) {
    && SameShape(cls, cls')
    && forall c {:trigger cls'[c]} :: c in cls && cls[c].resolved ==> cls'[c] == cls[c]
  }

  lemma SameShapeKeeps(cls: Store, cls': Store, rank: map<nat, nat>, owner: map<nat, nat>)
    requires SameShape(cls, cls') && Pairs(cls, owner) && Ranked(cls, rank)
    ensures Pairs(cls', owner) && Ranked(cls', rank)
    ensures MetaSupers(cls) ==> MetaSupers(cls')
    ensures MetaRoots(cls, rank) ==> MetaRoots(cls', rank)
  {
    forall c | c in cls ensures PairOk(cls', owner, c) && SuperOk(cls', rank, c) {
      assert PairOk(cls, owner, c) && SuperOk(cls, rank, c);
    }
    forall c | c in cls' && MetaSupers(cls) ensures MetaSuperOk(cls', c) { assert MetaSuperOk(cls, c); }
    forall c | c in cls' && MetaRoots(cls, rank) ensures MetaRootOk(cls', rank, c) {
      assert MetaRootOk(cls, rank, c);
      RootSame(cls, rank, cls', rank, c);
    }
  }

  lemma {:induction false} RootSame(cls: Store, rank: map<nat, nat>, cls': Store, rank': map<nat, nat>, c: nat)
    requires Ranked(cls, rank) && Ranked(cls', rank') && c in cls && cls.Keys == cls'.Keys
    requires forall d {:trigger cls'[d]} :: d in cls && !cls[d].meta ==> cls'[d].super == cls[d].super
    ensures !cls[c].meta ==> Root(cls', rank', c) == Root(cls, rank, c) && !cls[Root(cls, rank, c)].meta
    decreases if c in rank then rank[c] else 0
  {
    assert SuperOk(cls, rank, c) && SuperOk(cls', rank', c);
    if cls[c].super.Some? && !cls[c].meta { RootSame(cls, rank, cls', rank', cls[c].super.value); }
  }

  lemma LinksOnlyForest(cls: Store, cls': Store, kids: map<nat, seq<nat>>, detached: set<nat>)
    requires LinksOnly(cls, cls') && Forest(cls, kids, detached)
    ensures Forest(cls', kids, detached)
  {
    forall p | p in cls' ensures Threaded(cls', p, kids[p]) {
      assert Threaded(cls, p, kids[p]);
      forall i | 0 <= i < |kids[p]| ensures SiblingOk(cls', kids[p], i) {
        assert SiblingOk(cls, kids[p], i) && kids[p][i] in kids[p];
      }
    }
  }

  /** `x->sibling_class = p->subclass_list; p->subclass_list = x;` */
  function Link(cls: Store, x: nat, p: nat): Store
    requires x in cls && p in cls
  {
    var cls1 := cls[x := cls[x].(siblingClass := cls[p].subclassList)];
    cls1[p := cls1[p].(subclassList := Some(x))]
  }

  lemma LinkThreaded(cls: Store, kids: map<nat, seq<nat>>, detached: set<nat>, x: nat, p: nat, q: nat)
    requires Forest(cls, kids, detached) && x in cls && p in cls && x != p && q in cls
    requires cls[p].resolved && x in detached
    ensures Threaded(Link(cls, x, p), q, if q == p then [x] + kids[p] else kids[q])
  {
    assert Threaded(cls, q, kids[q]);
    var xs := if q == p then [x] + kids[p] else kids[q];
    var d := if q == p then 1 else 0;
    forall i | 0 <= i < |xs| ensures SiblingOk(Link(cls, x, p), xs, i) {
      if i >= d {
        assert SiblingOk(cls, kids[q], i - d) && kids[q][i - d] in kids[q];
      }
    }
    forall i | 0 <= i < |kids[q]| ensures kids[q][i] != x { assert kids[q][i] in kids[q]; }
  }

  lemma LinkForest(cls: Store, kids: map<nat, seq<nat>>, detached: set<nat>, x: nat, p: nat)
    requires Forest(cls, kids, detached) && x in cls && p in cls && x != p
    requires cls[x].resolved && cls[p].resolved && cls[x].super == Some(p) && x in detached
    ensures Forest(Link(cls, x, p), kids[p := [x] + kids[p]], detached - {x})
  {
    var cls', kids' := Link(cls, x, p), kids[p := [x] + kids[p]];
    forall q | q in cls' ensures Threaded(cls', q, kids'[q]) {
      LinkThreaded(cls, kids, detached, x, p, q);
    }
    forall q, c | q in cls' ensures c in kids'[q] <==> IsKid(cls', detached - {x}, q, c) {
      assert c in kids[q] <==> IsKid(cls, detached, q, c);
    }
  }

  lemma LinkCore(cls: Store, rank: map<nat, nat>, owner: map<nat, nat>, head: Option<nat>, pending: seq<nat>,
                 kids: map<nat, seq<nat>>, detached: set<nat>, x: nat, p: nat)
    requires Core(cls, rank, owner, head, pending, kids, detached)
    requires x in cls && p in cls && x != p
    requires cls[x].resolved && cls[p].resolved && cls[x].super == Some(p) && x in detached
    ensures Core(Link(cls, x, p), rank, owner, head, pending, kids[p := [x] + kids[p]], detached - {x})
    ensures MetaSupers(cls) ==> MetaSupers(Link(cls, x, p))
    ensures MetaRoots(cls, rank) ==> MetaRoots(Link(cls, x, p), rank)
  {
    var cls' := Link(cls, x, p);
    LinkForest(cls, kids, detached, x, p);
    SameShapeKeeps(cls, cls', rank, owner);
    forall c | c in cls ensures IdleOk(cls', pending, c) { assert IdleOk(cls, pending, c); }
    forall i | 0 <= i < |pending| ensures WaitOk(cls', pending, i) { assert WaitOk(cls, pending, i); }
  }

  /** Ranks after everything below `x` has been moved below `p`. */
  ghost function Reranked(cls: Store, rank: map<nat, nat>, x: nat, p: nat): map<nat, nat>
    requires Ranked(cls, rank) && p in rank
  {
    map d | d in cls && d in rank :: if Desc(cls, rank, d, x) then rank[d] + rank[p] + 1 else rank[d]
  }

  ghost predicate Rehung(cls: Store, x: nat, p: nat, isa: nat, cls': Store) {
    && x in cls && p in cls
    && cls' == cls[x := cls[x].(super := Some(p), isa := isa)]
    && (cls[x].meta || !cls[p].meta)
    && (isa == cls[x].isa || (cls[x].meta && isa in cls && cls[isa].meta))
    && (cls[x].resolved ==> cls[p].resolved)
  }

  lemma RehungRanked(cls: Store, rank: map<nat, nat>, x: nat, p: nat, isa: nat, cls': Store)
    requires Ranked(cls, rank) && Rehung(cls, x, p, isa, cls') && p in rank && !Desc(cls, rank, p, x)
    ensures Ranked(cls', Reranked(cls, rank, x, p))
  {
    var rank' := Reranked(cls, rank, x, p);
    forall d | d in cls ensures SuperOk(cls', rank', d) {
      assert SuperOk(cls, rank, d) && SuperOk(cls, rank, p);
      assert cls[d].super.Some? ==> SuperOk(cls, rank, cls[d].super.value);
    }
  }

  /** The class and its metaclass become resolved; they are on no list yet. */
  function Marked(cls: Store, c: nat, superMeta: nat, metaMeta: nat): Store
    requires c in cls && cls[c].isa in cls
  {
    var meta := cls[c].isa;
    cls[c := cls[c].(resolved := true)]
       [meta := cls[meta].(resolved := true, super := Some(superMeta), isa := metaMeta)]
  }

  /** `c` is next to be resolved: it is off the unresolved list and its superclass is resolved. */
  ghost predicate Ready(cls: Store, pending: seq<nat>, c: nat, superMeta: nat, metaMeta: nat) {
    && c in cls && !cls[c].meta && !cls[c].resolved && c !in pending && cls[c].isa in cls
    && metaMeta in cls && cls[metaMeta].meta
    && match cls[c].super
       case None => superMeta == c
       case Some(s) => s in cls && cls[s].resolved && superMeta == cls[s].isa
  }

  ghost function Loose(cls: Store, c: nat): set<nat>
    requires c in cls
  {
    if cls[c].super.Some? then {c, cls[c].isa} else {cls[c].isa}
  }

  lemma MarkedForest(cls: Store, pending: seq<nat>, kids: map<nat, seq<nat>>, detached: set<nat>, c: nat, superMeta: nat, metaMeta: nat)
    requires Forest(cls, kids, detached) && Idle(cls, pending) && Ready(cls, pending, c, superMeta, metaMeta)
    requires cls[c].isa !in pending && cls[cls[c].isa].meta && !cls[cls[c].isa].resolved
    ensures Forest(Marked(cls, c, superMeta, metaMeta), kids, detached + Loose(cls, c))
  {
    var cls', detached' := Marked(cls, c, superMeta, metaMeta), detached + Loose(cls, c);
    assert IdleOk(cls, pending, c) && IdleOk(cls, pending, cls[c].isa);
    forall p | p in cls' ensures Threaded(cls', p, kids[p]) {
      assert Threaded(cls, p, kids[p]);
      forall i | 0 <= i < |kids[p]| ensures SiblingOk(cls', kids[p], i) {
        assert SiblingOk(cls, kids[p], i) && kids[p][i] in kids[p];
      }
    }
    forall p, d | p in cls' ensures d in kids[p] <==> IsKid(cls', detached', p, d) {
      assert d in kids[p] <==> IsKid(cls, detached, p, d);
    }
  }

  /** Nothing that a metaclass is put below when it is resolved is below it before. */
  lemma AboveMeta(cls: Store, rank: map<nat, nat>, owner: map<nat, nat>, pending: seq<nat>, c: nat, superMeta: nat, metaMeta: nat)
    requires Pairs(cls, owner) && Ranked(cls, rank) && Ready(cls, pending, c, superMeta, metaMeta)
    ensures superMeta in cls && superMeta in rank && superMeta != cls[c].isa && !Desc(cls, rank, superMeta, cls[c].isa)
    ensures cls[cls[c].isa].meta && !cls[cls[c].isa].resolved
    ensures cls[c].super.Some? ==> cls[superMeta].resolved
  {
    assert PairOk(cls, owner, c) && SuperOk(cls, rank, c);
    assert cls[c].super.Some? ==> PairOk(cls, owner, cls[c].super.value);
    assert SuperOk(cls, rank, superMeta);
    if Desc(cls, rank, superMeta, cls[c].isa) { DescUp(cls, rank, superMeta, cls[c].isa); }
  }

  lemma MarkedRanked(cls: Store, rank: map<nat, nat>, owner: map<nat, nat>, pending: seq<nat>, c: nat, superMeta: nat, metaMeta: nat)
    requires Pairs(cls, owner) && Ranked(cls, rank) && Ready(cls, pending, c, superMeta, metaMeta) && superMeta in rank
    ensures Ranked(Marked(cls, c, superMeta, metaMeta), Reranked(cls, rank, cls[c].isa, superMeta))
  {
    AboveMeta(cls, rank, owner, pending, c, superMeta, metaMeta);
    var meta := cls[c].isa;
    var cls', rank' := Marked(cls, c, superMeta, metaMeta), Reranked(cls, rank, meta, superMeta);
    var cls1 := cls[meta := cls[meta].(super := Some(superMeta), isa := metaMeta)];
    RehungRanked(cls, rank, meta, superMeta, metaMeta, cls1);
    forall d | d in cls ensures SuperOk(cls', rank', d) { assert SuperOk(cls1, rank', d); }
  }

  lemma MarkedCore(cls: Store, rank: map<nat, nat>, owner: map<nat, nat>, head: Option<nat>, pending: seq<nat>,
                   kids: map<nat, seq<nat>>, detached: set<nat>, c: nat, superMeta: nat, metaMeta: nat)
    requires Core(cls, rank, owner, head, pending, kids, detached)
    requires Ready(cls, pending, c, superMeta, metaMeta)
    ensures superMeta in rank
    ensures Core(Marked(cls, c, superMeta, metaMeta), Reranked(cls, rank, cls[c].isa, superMeta), owner, head, pending,
                 kids, detached + Loose(cls, c))
  {
    var meta := cls[c].isa;
    assert PairOk(cls, owner, c);
    AboveMeta(cls, rank, owner, pending, c, superMeta, metaMeta);
    MarkedRanked(cls, rank, owner, pending, c, superMeta, metaMeta);
    var cls' := Marked(cls, c, superMeta, metaMeta);
    forall i | 0 <= i < |pending| ensures WaitOk(cls', pending, i) && pending[i] != meta { assert WaitOk(cls, pending, i); }
    MarkedForest(cls, pending, kids, detached, c, superMeta, metaMeta);
    forall d | d in cls ensures PairOk(cls', owner, d) && IdleOk(cls', pending, d) {
      assert PairOk(cls, owner, d) && IdleOk(cls, pending, d);
    }
  }

  lemma MarkedSquare(cls: Store, rank: map<nat, nat>, owner: map<nat, nat>, pending: seq<nat>, c: nat,
                     superMeta: nat, metaMeta: nat, rank': map<nat, nat>)
    requires Pairs(cls, owner) && Ranked(cls, rank) && Ready(cls, pending, c, superMeta, metaMeta)
    requires Ranked(Marked(cls, c, superMeta, metaMeta), rank')
    requires metaMeta == cls[Root(cls, rank, c)].isa
    ensures MetaSupers(cls) ==> MetaSupers(Marked(cls, c, superMeta, metaMeta))
    ensures MetaRoots(cls, rank) ==> MetaRoots(Marked(cls, c, superMeta, metaMeta), rank')
  {
    var cls' := Marked(cls, c, superMeta, metaMeta);
    assert PairOk(cls, owner, c);
    forall d | d in cls && MetaSupers(cls) ensures MetaSuperOk(cls', d) {
      assert MetaSuperOk(cls, d) && PairOk(cls, owner, d) && SuperOk(cls, rank, d);
      assert cls[d].super.Some? ==> PairOk(cls, owner, cls[d].super.value);
    }
    forall d | d in cls && MetaRoots(cls, rank) ensures MetaRootOk(cls', rank', d) {
      assert MetaRootOk(cls, rank, d) && PairOk(cls, owner, d);
      RootSame(cls, rank, cls', rank', d);
    }
  }

  /** The links and flags that resolving `c` sets, once it is off the unresolved list. */
  function Attached(cls: Store, c: nat, superMeta: nat, metaMeta: nat): Store
    requires c in cls && cls[c].isa in cls && superMeta in cls
    requires cls[c].super.Some? ==> cls[c].super.value in cls
  {
    var cls1 := Marked(cls, c, superMeta, metaMeta);
    var cls2 := if cls[c].super.Some? then Link(cls1, c, cls[c].super.value) else cls1;
    Link(cls2, cls[c].isa, superMeta)
  }

  ghost function AttachedKids(cls: Store, kids: map<nat, seq<nat>>, c: nat, superMeta: nat): map<nat, seq<nat>>
    requires c in cls && superMeta in kids && (cls[c].super.Some? ==> cls[c].super.value in kids)
  {
    var kids1 := if cls[c].super.Some? then kids[cls[c].super.value := [c] + kids[cls[c].super.value]] else kids;
    kids1[superMeta := [cls[c].isa] + kids1[superMeta]]
  }

  lemma AttachedCore(cls: Store, rank: map<nat, nat>, owner: map<nat, nat>, head: Option<nat>, pending: seq<nat>,
                     kids: map<nat, seq<nat>>, detached: set<nat>, c: nat, superMeta: nat, metaMeta: nat)
    requires Core(cls, rank, owner, head, pending, kids, detached) && Ready(cls, pending, c, superMeta, metaMeta)
    requires metaMeta == cls[Root(cls, rank, c)].isa
    ensures superMeta in rank && superMeta in cls
    ensures var cls', rank' := Attached(cls, c, superMeta, metaMeta), Reranked(cls, rank, cls[c].isa, superMeta);
            && Core(cls', rank', owner, head, pending, AttachedKids(cls, kids, c, superMeta), detached)
            && (MetaSupers(cls) ==> MetaSupers(cls'))
            && (MetaRoots(cls, rank) ==> MetaRoots(cls', rank'))
  {
    var meta := cls[c].isa;
    assert PairOk(cls, owner, c) && SuperOk(cls, rank, c);
    assert cls[c].super.Some? ==> PairOk(cls, owner, cls[c].super.value);
    MarkedCore(cls, rank, owner, head, pending, kids, detached, c, superMeta, metaMeta);
    var rank' := Reranked(cls, rank, meta, superMeta);
    MarkedSquare(cls, rank, owner, pending, c, superMeta, metaMeta, rank');
    var cls1, d1 := Marked(cls, c, superMeta, metaMeta), detached + Loose(cls, c);
    match cls[c].super
    case None =>
      LinkCore(cls1, rank', owner, head, pending, kids, d1, meta, superMeta);
      assert d1 - {meta} == detached;
    case Some(s) =>
      LinkCore(cls1, rank', owner, head, pending, kids, d1, c, s);
      LinkCore(Link(cls1, c, s), rank', owner, head, pending, kids[s := [c] + kids[s]], d1 - {c}, meta, superMeta);
      assert d1 - {c} - {meta} == detached;
  }

  /** Every unresolved class from `c` up is waiting to be resolved. */
  ghost predicate Listed(cls: Store, rank: map<nat, nat>, pending: seq<nat>, c: nat)
    requires Ranked(cls, rank) && c in cls
    decreases if c in rank then rank[c] else 0
  {
    assert SuperOk(cls, rank, c);
    cls[c].resolved || (c in pending && (cls[c].super.Some? ==> Listed(cls, rank, pending, cls[c].super.value)))
  }

  /** What resolving classes leaves alone: superclasses of classes, everything but the
      links of structures already resolved, and the ranks of classes. */
  ghost predicate Resolving(cls: Store, rank: map<nat, nat>, cls': Store, rank': map<nat, nat>) {
    && cls'.Keys == cls.Keys
    && forall d {:trigger cls'[d]} :: d in cls ==>
         && cls'[d].meta == cls[d].meta
         && (cls[d].resolved ==> cls'[d].resolved && cls'[d].super == cls[d].super && cls'[d].isa == cls[d].isa)
         && (!cls[d].meta ==> cls'[d].super == cls[d].super && cls'[d].isa == cls[d].isa
                              && d in rank && d in rank' && rank'[d] == rank[d])
  }
}
