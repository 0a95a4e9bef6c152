/** Instance variable layout (`ivar.c`) and the resolution that triggers it. */
module Ivars {
  import opened Arithmetic
  import opened Basics

  /** The reference count in front of every object. */
  const REFCOUNT := 8

  const LONG_MIN := -0x8000_0000_0000_0000

  /** `offset` is the declared offset before the layout and the computed one after it. */
  datatype Ivar = Ivar(offset: int, size: nat, align: nat, isBool: bool)

  /** A class structure: where variables are placed late, its size is 0 or negative until then. */
  datatype Class = Class(super: Option<nat>, ivars: Option<seq<Ivar>>, size: int, resolved: bool)

  function End(v: Ivar): int {
    v.offset + v.size
  }

  /** The size that is laid out: some compilers record that of a `_Bool` as 0. */
  function Fixed(v: Ivar): Ivar {
    if v.size == 0 && v.isBool then v.(size := 1) else v
  }

  /** Aligned in memory, where the reference count comes first. */
  predicate Aligned(at: int, align: nat)
    requires align > 0
  {
    (at + REFCOUNT) % align == 0
  }

  /** The variable whose storage `i` is in: itself, or for a bitfield the one that declares it. */
  function Base(ds: seq<Ivar>, i: nat): (b: nat)
    requires i < |ds|
    ensures b <= i
    decreases i
  {
    if i > 0 && ds[i].offset < End(Fixed(ds[Base(ds, i - 1)])) then Base(ds, i - 1) else i
  }

  lemma {:induction false} BaseIsBase(ds: seq<Ivar>, i: nat)
    requires i < |ds|
    ensures Base(ds, Base(ds, i)) == Base(ds, i)
    decreases i
  {
    if Base(ds, i) != i { BaseIsBase(ds, i - 1); }
  }

  /** Where the storage before `i` ends. */
  function Before(ds: seq<Ivar>, vs: seq<Ivar>, start: int, i: nat): int
    requires i <= |ds| == |vs|
  {
    if i == 0 then start else End(vs[Base(ds, i - 1)])
  }

  /** `at` is the first place from `from` on that is aligned. */
  ghost predicate FirstAt(from: int, align: nat, at: int) {
    align > 0 && from <= at && Aligned(at, align) && forall x :: from <= x < at ==> !Aligned(x, align)
  }

  /** Storage follows what lies before it, at the first place that is aligned.  A variable in the
      storage of another is put where that would have been without padding. */
  ghost predicate PlacedAt(ds: seq<Ivar>, vs: seq<Ivar>, start: int, i: nat)
    requires i < |ds| == |vs|
  {
    var b := Base(ds, i);
    if b == i then FirstAt(Before(ds, vs, start, i), vs[i].align, vs[i].offset)
    else vs[i].offset == Before(ds, vs, start, b) + (ds[i].offset - ds[b].offset)
  }

  ghost predicate Placed(ds: seq<Ivar>, vs: seq<Ivar>, start: int, n: nat) {
    |vs| == |ds| && n <= |ds| && forall i {:trigger PlacedAt(ds, vs, start, i)} :: 0 <= i < n ==> PlacedAt(ds, vs, start, i)
  }

  /** The same variables but for the places of the first `n`. */
  ghost predicate SameVars(vs: seq<Ivar>, vs': seq<Ivar>, n: nat) {
    |vs'| == |vs| && n <= |vs| && forall i {:trigger vs'[i]} :: 0 <= i < |vs| ==> vs'[i] == if i < n then Fixed(vs[i]).(offset := vs'[i].offset) else vs[i]
  }

  /** The padding that the source adds. */
  function Padding(from: int, align: nat): nat
    requires align > 0
  {
    if (from + REFCOUNT) % align != 0 then align - (from + REFCOUNT) % align else 0
  }

  /** The padding that the source adds leads to the first aligned place. */
  lemma FirstAligned(from: int, align: nat, padding: nat)
    requires align > 0 && padding == Padding(from, align)
    ensures FirstAt(from, align, from + padding)
  {
    var x := from + REFCOUNT;
    var q := Quotient(x, align);
    if x % align != 0 {
      Distribute(align, q, 1);
      Euclid(x + padding, align, q + 1, 0);
      forall at | from <= at < from + padding ensures !Aligned(at, align) {
        Euclid(at + REFCOUNT, align, q, x % align + (at - from));
      }
    }
  }

  ghost predicate Sane(ivars: seq<Ivar>) {
    forall i {:trigger ivars[i]} :: 0 <= i < |ivars| ==> ivars[i].align > 0 && ivars[i].offset >= LONG_MIN
  }

  /** The loop of `objc_compute_ivar_offsets`. */
  method PlaceAll(ivars: seq<Ivar>, start: int) returns (vs: seq<Ivar>, size: int)
    requires Sane(ivars)
    ensures SameVars(ivars, vs, |ivars|) && Placed(ivars, vs, start, |ivars|) && size == Before(ivars, vs, start, |ivars|)
    ensures forall i :: 0 <= i < |ivars| ==> InMemory(ivars, vs, start, i)
  {
    vs, size := ivars, start;
    var nextIvar, lastOffset, lastSize, lastComputed := start, LONG_MIN, 0, -1;
    for i := 0 to |ivars|
      invariant SameVars(ivars, vs, i) && Placed(ivars, vs, start, i) && nextIvar == size == Before(ivars, vs, start, i)
      invariant i == 0 ==> lastOffset == LONG_MIN && lastSize == 0
      invariant i > 0 ==> var b := Base(ivars, i - 1);
                          lastOffset == ivars[b].offset && lastSize == Fixed(ivars[b]).size && lastComputed == Before(ivars, vs, start, b)
    {
      ghost var vs0 := vs;
      assert vs[i] == ivars[i];
      var ivar := Fixed(vs[i]);
      if ivar.offset < lastOffset + lastSize {
        ivar := ivar.(offset := lastComputed + (ivar.offset - lastOffset));
      } else {
        lastOffset := ivar.offset;
        lastComputed := nextIvar;
        lastSize := ivar.size;
        var padding := Padding(nextIvar, ivar.align);
        FirstAligned(nextIvar, ivar.align, padding);
        ivar := ivar.(offset := nextIvar + padding);
        size := size + padding + ivar.size;
        nextIvar := nextIvar + ivar.size + padding;
      }
      vs := vs[i := ivar];
      PlacedMore(ivars, vs0, vs, start, i);
    }
    forall i | 0 <= i < |ivars| ensures InMemory(ivars, vs, start, i) { InMemoryIs(ivars, vs, start, i); }
  }

  /** Storage in memory, where 8 bytes come before the object: it has the recorded size, but for a
      `_Bool` of size 0, which has one byte, and the first place that is a multiple of its alignment. */
  ghost predicate InMemory(ds: seq<Ivar>, vs: seq<Ivar>, start: int, i: nat)
    requires i < |ds| == |vs|
  {
    && vs[i].align == ds[i].align && vs[i].isBool == ds[i].isBool
    && vs[i].size == (if ds[i].size == 0 && ds[i].isBool then 1 else ds[i].size)
    && (Base(ds, i) == i ==>
          && Before(ds, vs, start, i) <= vs[i].offset && Boundary(vs[i].offset, vs[i].align)
          && forall x {:trigger Boundary(x, vs[i].align)} :: Before(ds, vs, start, i) <= x < vs[i].offset ==> !Boundary(x, vs[i].align))
  }

  /** The byte at `x` of an object lies 8 bytes further on in its memory. */
  ghost predicate Boundary(x: int, align: nat) {
    align > 0 && (x + 8) % align == 0
  }

  lemma InMemoryIs(ds: seq<Ivar>, vs: seq<Ivar>, start: int, i: nat)
    requires SameVars(ds, vs, |ds|) && Placed(ds, vs, start, |ds|) && i < |ds|
    ensures InMemory(ds, vs, start, i)
  {
    assert vs[i] == Fixed(ds[i]).(offset := vs[i].offset) && PlacedAt(ds, vs, start, i);
    if Base(ds, i) == i {
      assert Aligned(vs[i].offset, vs[i].align);
      forall x | Before(ds, vs, start, i) <= x < vs[i].offset ensures !Boundary(x, vs[i].align) { assert !Aligned(x, vs[i].align); }
    }
  }

  /** A pointer and a vector of 16 bytes after `isa`: the vector is 16-aligned only with the 8 bytes
      before the object. */
  lemma PointerAndVector(vs: seq<Ivar>)
    requires var ds := [Ivar(8, 8, 8, false), Ivar(16, 16, 16, false)]; SameVars(ds, vs, 2) && Placed(ds, vs, 8, 2)
    ensures vs[0].offset == 8 && vs[1].offset == 24 && Before([Ivar(8, 8, 8, false), Ivar(16, 16, 16, false)], vs, 8, 2) == 40
  {
    var ds := [Ivar(8, 8, 8, false), Ivar(16, 16, 16, false)];
    assert Base(ds, 0) == 0 && Base(ds, 1) == 1;
    InMemoryIs(ds, vs, 8, 0);
    InMemoryIs(ds, vs, 8, 1);
    assert Boundary(8, 8) && Boundary(24, 16);
    assert forall x :: 16 <= x < 24 ==> !Boundary(x, 16);
    assert vs[1].offset >= 24;
  }

  /** Two `_Bool` variables that were recorded with size 0 have a byte each. */
  lemma BoolsApart(vs: seq<Ivar>, start: int)
    requires var ds := [Ivar(8, 0, 1, true), Ivar(9, 0, 1, true)]; SameVars(ds, vs, 2) && Placed(ds, vs, start, 2)
    ensures vs[0].offset == start && End(vs[0]) == start + 1 == vs[1].offset && End(vs[1]) == start + 2
  {
    var ds := [Ivar(8, 0, 1, true), Ivar(9, 0, 1, true)];
    assert Base(ds, 0) == 0 && Base(ds, 1) == 1;
    InMemoryIs(ds, vs, start, 0);
    InMemoryIs(ds, vs, start, 1);
    assert Boundary(start, 1) && Boundary(start + 1, 1);
  }

  /** A place once given is not touched by those given later. */
  lemma PlacedMore(ds: seq<Ivar>, vs: seq<Ivar>, vs': seq<Ivar>, start: int, i: nat)
    requires Placed(ds, vs, start, i) && i < |ds| && |vs'| == |vs| && forall j :: 0 <= j < i ==> vs'[j] == vs[j]
    ensures Placed(ds, vs', start, i) && forall j: nat :: j <= i ==> Before(ds, vs', start, j) == Before(ds, vs, start, j)
  {
    forall j | 0 <= j < i ensures PlacedAt(ds, vs', start, j) { assert PlacedAt(ds, vs, start, j); }
  }

  /** Storage of one class comes in order and does not overlap. */
  lemma {:induction false} Ordered(ds: seq<Ivar>, vs: seq<Ivar>, start: int, i: nat, j: nat)
    requires Placed(ds, vs, start, |ds|) && i < j < |ds| && Base(ds, i) == i && Base(ds, j) == j
    ensures End(vs[i]) <= vs[j].offset
    decreases j
  {
    assert PlacedAt(ds, vs, start, j);
    BaseBetween(ds, i, j - 1);
    var b := Base(ds, j - 1);
    BaseIsBase(ds, j - 1);
    if i < b { Ordered(ds, vs, start, i, b); }
  }

  lemma {:induction false} BaseBetween(ds: seq<Ivar>, i: nat, j: nat)
    requires i <= j < |ds| && Base(ds, i) == i
    ensures i <= Base(ds, j)
    decreases j
  {
    if i < j { BaseBetween(ds, i, j - 1); }
  }

  lemma {:induction false} FromStart(ds: seq<Ivar>, vs: seq<Ivar>, start: int, i: nat)
    requires Placed(ds, vs, start, |ds|) && i < |ds| && Base(ds, i) == i
    ensures start <= Before(ds, vs, start, i) <= vs[i].offset
    decreases i
  {
    assert PlacedAt(ds, vs, start, i);
    if i > 0 {
      BaseIsBase(ds, i - 1);
      FromStart(ds, vs, start, Base(ds, i - 1));
    }
  }

  /** It lies between the end of the superclass's and the size of the class. */
  lemma Within(ds: seq<Ivar>, vs: seq<Ivar>, start: int, i: nat)
    requires Placed(ds, vs, start, |ds|) && i < |ds| && Base(ds, i) == i
    ensures start <= vs[i].offset && End(vs[i]) <= Before(ds, vs, start, |ds|)
  {
    FromStart(ds, vs, start, i);
    var b := Base(ds, |ds| - 1);
    BaseIsBase(ds, |ds| - 1);
    BaseBetween(ds, i, |ds| - 1);
    if i < b { Ordered(ds, vs, start, i, b); }
  }

  lemma SizeFromStart(ds: seq<Ivar>, vs: seq<Ivar>, start: int)
    requires Placed(ds, vs, start, |ds|)
    ensures start <= Before(ds, vs, start, |ds|)
  {
    if ds != [] {
      BaseIsBase(ds, |ds| - 1);
      FromStart(ds, vs, start, Base(ds, |ds| - 1));
    }
  }

  /** Where the storage before variable `i` will end, told from the declarations alone. */
  function Extent(ds: seq<Ivar>, start: int, i: nat): int
    requires i <= |ds| && forall j :: 0 <= j < |ds| ==> ds[j].align > 0
  {
    if i == 0 then start
    else if Base(ds, i - 1) == i - 1 then Extent(ds, start, i - 1) + Padding(Extent(ds, start, i - 1), ds[i - 1].align) + Fixed(ds[i - 1]).size
    else Extent(ds, start, i - 1)
  }

  lemma {:induction false} ExtentIs(ds: seq<Ivar>, vs: seq<Ivar>, start: int, i: nat)
    requires Sane(ds) && SameVars(ds, vs, |ds|) && Placed(ds, vs, start, |ds|) && i <= |ds|
    ensures Before(ds, vs, start, i) == Extent(ds, start, i)
    decreases i
  {
    if i > 0 {
      ExtentIs(ds, vs, start, i - 1);
      assert PlacedAt(ds, vs, start, i - 1) && vs[i - 1] == Fixed(ds[i - 1]).(offset := vs[i - 1].offset);
      if Base(ds, i - 1) == i - 1 {
        FirstAligned(Extent(ds, start, i - 1), ds[i - 1].align, Padding(Extent(ds, start, i - 1), ds[i - 1].align));
      }
    }
  }

  /** A variable in the storage of another keeps its place in it exactly when that storage needs no
      padding: the position that is added to was saved before the padding. */
  lemma SharedExact(ds: seq<Ivar>, vs: seq<Ivar>, start: int, i: nat)
    requires Sane(ds) && SameVars(ds, vs, |ds|) && Placed(ds, vs, start, |ds|) && i < |ds| && Base(ds, i) != i
    ensures vs[i].offset - vs[Base(ds, i)].offset == ds[i].offset - ds[Base(ds, i)].offset <==>
            Padding(Extent(ds, start, Base(ds, i)), ds[Base(ds, i)].align) == 0
  {
    var b := Base(ds, i);
    BaseIsBase(ds, i);
    ExtentIs(ds, vs, start, b);
    assert PlacedAt(ds, vs, start, i) && PlacedAt(ds, vs, start, b) && vs[b] == Fixed(ds[b]).(offset := vs[b].offset);
    FirstAligned(Extent(ds, start, b), ds[b].align, Padding(Extent(ds, start, b), ds[b].align));
  }

  /** A byte, and two bitfields in one word, after a pointer: the second bitfield is not put into
      the word but directly behind the byte. */
  lemma SharedLost(vs: seq<Ivar>)
    requires var ds := [Ivar(8, 1, 1, false), Ivar(12, 4, 4, false), Ivar(12, 4, 4, false)];
             SameVars(ds, vs, 3) && Placed(ds, vs, 8, 3)
    ensures vs[0].offset == 8 && vs[1].offset == 12 && vs[2].offset == 9
  {
    var ds := [Ivar(8, 1, 1, false), Ivar(12, 4, 4, false), Ivar(12, 4, 4, false)];
    assert Base(ds, 0) == 0 && Base(ds, 1) == 1 && Base(ds, 2) == 1;
    assert PlacedAt(ds, vs, 8, 0) && PlacedAt(ds, vs, 8, 1) && PlacedAt(ds, vs, 8, 2);
    assert Aligned(8, 1) && Aligned(12, 4) && !Aligned(9, 4) && !Aligned(10, 4) && !Aligned(11, 4);
  }

  /** A class of size 0 has only empty storage, at 0. */
  ghost predicate Empty(ds: seq<Ivar>, vs: seq<Ivar>) {
    SameVars(ds, vs, |ds|) && Placed(ds, vs, 0, |ds|) && Before(ds, vs, 0, |ds|) == 0
  }

  lemma EmptyBase(ds: seq<Ivar>, vs: seq<Ivar>, i: nat)
    requires Empty(ds, vs) && i < |ds|
    ensures var b := Base(ds, i); vs[b].offset == 0 == End(vs[b]) && Fixed(vs[b]) == vs[b] && Before(ds, vs, 0, b) == 0
    ensures Fixed(vs[i]) == vs[i] && (Base(ds, i) != i ==> vs[i].offset < 0)
  {
    var b := Base(ds, i);
    BaseIsBase(ds, i);
    Within(ds, vs, 0, b);
    FromStart(ds, vs, 0, b);
    assert vs[i] == Fixed(ds[i]).(offset := vs[i].offset) && vs[b] == Fixed(ds[b]).(offset := vs[b].offset);
    assert PlacedAt(ds, vs, 0, i);
    if b != i { SharedBelow(ds, i); }
  }

  lemma {:induction false} SharedBelow(ds: seq<Ivar>, i: nat)
    requires i < |ds| && Base(ds, i) != i
    ensures ds[i].offset < End(Fixed(ds[Base(ds, i)]))
  {
  }

  lemma {:induction false} EmptyBases(ds: seq<Ivar>, vs: seq<Ivar>, i: nat)
    requires Empty(ds, vs) && i < |ds|
    ensures Base(vs, i) == Base(ds, i)
    decreases i
  {
    EmptyBase(ds, vs, i);
    if i > 0 {
      EmptyBase(ds, vs, i - 1);
      EmptyBases(ds, vs, i - 1);
    }
  }

  /** Laying it out once more moves nothing. */
  lemma {:induction false} EmptyAgain(ds: seq<Ivar>, vs: seq<Ivar>, vs': seq<Ivar>, i: nat)
    requires Empty(ds, vs) && SameVars(vs, vs', |vs|) && Placed(vs, vs', 0, |vs|) && i < |ds|
    ensures Base(vs, i) == Base(ds, i) && vs'[i] == vs[i] && End(vs[Base(ds, i)]) == 0
    decreases i
  {
    EmptyBase(ds, vs, i);
    EmptyBases(ds, vs, i);
    var b := Base(vs, i);
    if b > 0 {
      EmptyAgain(ds, vs, vs', b - 1);
      EmptyBase(ds, vs, b - 1);
      if Base(vs, b - 1) < b - 1 { EmptyAgain(ds, vs, vs', Base(vs, b - 1)); }
    }
    assert PlacedAt(vs, vs', 0, i) && PlacedAt(ds, vs, 0, i);
    assert vs'[i] == Fixed(vs[i]).(offset := vs'[i].offset);
  }

  type Store = map<nat, Class>

  ghost predicate Ranked(cls: Store, rank: map<nat, nat>) {
    forall c {:trigger cls[c]} :: c in cls ==>
      c in rank && (cls[c].super.Some? ==> cls[c].super.value in cls && cls[c].super.value in rank && rank[cls[c].super.value] < rank[c])
  }

  /** Where the variables of `c` begin: after those of its superclass. */
  function Start(cls: Store, c: nat): int
    requires c in cls
  {
    match cls[c].super
    case None => 0
    case Some(s) => if s in cls then cls[s].size else 0
  }

  /** The class is laid out after its superclass, from its declaration in `declared`. */
  ghost predicate LaidOut(cls: Store, declared: map<nat, seq<Ivar>>, c: nat)
    requires c in cls
  {
    && 0 <= Start(cls, c) <= cls[c].size
    && (cls[c].ivars.Some? ==>
          && c in declared && SameVars(declared[c], cls[c].ivars.value, |declared[c]|)
          && Placed(declared[c], cls[c].ivars.value, Start(cls, c), |declared[c]|)
          && cls[c].size == Before(declared[c], cls[c].ivars.value, Start(cls, c), |declared[c]|))
    && (cls[c].ivars.None? && cls[c].super.Some? ==> cls[c].size == Start(cls, c))
  }

  /** `c` and everything above it is laid out. */
  ghost predicate AllLaidOut(cls: Store, rank: map<nat, nat>, declared: map<nat, seq<Ivar>>, c: nat)
    requires Ranked(cls, rank) && c in cls
    decreases if c in rank then rank[c] else 0
  {
    LaidOut(cls, declared, c) && (cls[c].super.Some? ==> AllLaidOut(cls, rank, declared, cls[c].super.value))
  }

  /** What holds of each class while classes are resolved.  The classes in `fixed` came with their
      layout; a class in `todo` is marked resolved but not laid out yet. */
  ghost predicate Settled(cls: Store, declared: map<nat, seq<Ivar>>, fixed: set<nat>, todo: set<nat>, c: nat)
    requires c in cls
  {
    && (cls[c].resolved ==> cls[c].super.Some? ==> cls[c].super.value in cls && cls[cls[c].super.value].resolved && cls[c].super.value !in todo)
    && (c in todo ==> cls[c].resolved)
    && if cls[c].resolved && c !in todo
       then if c in fixed then cls[c].ivars.Some? && cls[c].size > 0 else LaidOut(cls, declared, c)
       else
         && (c in fixed <==> cls[c].ivars.Some? && cls[c].size > 0)
         && (cls[c].ivars.Some? ==> c in declared && cls[c].ivars.value == declared[c])
         && (cls[c].ivars.None? && cls[c].super.None? ==> cls[c].size >= 0)
  }

  ghost predicate Inv(cls: Store, rank: map<nat, nat>, declared: map<nat, seq<Ivar>>, fixed: set<nat>, todo: set<nat>) {
    && Ranked(cls, rank)
    && (forall c {:trigger declared[c]} :: c in declared ==> Compiled(declared[c]))
    && forall c {:trigger Settled(cls, declared, fixed, todo, c)} :: c in cls ==> Settled(cls, declared, fixed, todo, c)
  }

  /** Declared offsets are of type `int`. */
  ghost predicate Compiled(ivars: seq<Ivar>) {
    forall i {:trigger ivars[i]} :: 0 <= i < |ivars| ==> ivars[i].align > 0 && -0x8000_0000 <= ivars[i].offset < 0x8000_0000
  }

  lemma SizeIs(cls: Store, rank: map<nat, nat>, declared: map<nat, seq<Ivar>>, fixed: set<nat>, todo: set<nat>, c: nat)
    requires Inv(cls, rank, declared, fixed, todo) && c in cls && cls[c].resolved && c !in todo
    ensures cls[c].size >= 0
  {
    assert Settled(cls, declared, fixed, todo, c);
  }

  /** `a` is `c` or above it. */
  ghost predicate Up(cls: Store, rank: map<nat, nat>, c: nat, a: nat)
    requires Ranked(cls, rank) && c in cls
    decreases if c in rank then rank[c] else 0
  {
    c == a || (cls[c].super.Some? && Up(cls, rank, cls[c].super.value, a))
  }

  /** A resolved class and everything above it is laid out, exactly when the layouts that were not
      computed fit.  So where all are computed, every resolved class is laid out. */
  lemma {:induction false} ResolvedExact(cls: Store, rank: map<nat, nat>, declared: map<nat, seq<Ivar>>, fixed: set<nat>, c: nat)
    requires Inv(cls, rank, declared, fixed, {}) && c in cls && cls[c].resolved
    ensures AllLaidOut(cls, rank, declared, c) <==> forall a :: a in cls && a in fixed && Up(cls, rank, c, a) ==> LaidOut(cls, declared, a)
    decreases if c in rank then rank[c] else 0
  {
    assert Settled(cls, declared, fixed, {}, c);
    if cls[c].super.Some? {
      var s := cls[c].super.value;
      ResolvedExact(cls, rank, declared, fixed, s);
      forall a | a in cls ensures Up(cls, rank, c, a) <==> a == c || Up(cls, rank, s, a) { }
    }
    assert Up(cls, rank, c, c);
  }

  lemma {:induction false} LaidOutUp(cls: Store, rank: map<nat, nat>, declared: map<nat, seq<Ivar>>, c: nat, a: nat)
    requires Ranked(cls, rank) && c in cls && AllLaidOut(cls, rank, declared, c) && Up(cls, rank, c, a)
    ensures a in cls && LaidOut(cls, declared, a) && (a != c ==> cls[a].size <= Start(cls, c))
    decreases if c in rank then rank[c] else 0
  {
    if c != a { LaidOutUp(cls, rank, declared, cls[c].super.value, a); }
  }

  /** Across a whole chain of classes, no two storages overlap: those of a class above come first. */
  lemma ChainDisjoint(cls: Store, rank: map<nat, nat>, declared: map<nat, seq<Ivar>>, a: nat, i: nat, c: nat, j: nat)
    requires Ranked(cls, rank) && c in cls && AllLaidOut(cls, rank, declared, c) && a != c && Up(cls, rank, c, a) && a in cls
    requires cls[a].ivars.Some? && a in declared && i < |declared[a]| && Base(declared[a], i) == i && |cls[a].ivars.value| == |declared[a]|
    requires cls[c].ivars.Some? && c in declared && j < |declared[c]| && Base(declared[c], j) == j && |cls[c].ivars.value| == |declared[c]|
    ensures End(cls[a].ivars.value[i]) <= cls[c].ivars.value[j].offset
  {
    LaidOutUp(cls, rank, declared, c, a);
    Within(declared[a], cls[a].ivars.value, Start(cls, a), i);
    FromStart(declared[c], cls[c].ivars.value, Start(cls, c), j);
  }

  /** What resolving does: it resolves upwards and leaves alone what was resolved. */
  ghost predicate Grown(cls: Store, cls': Store, rank: map<nat, nat>, fixed: set<nat>, c: nat)
    requires Ranked(cls, rank) && c in cls
  {
    && cls'.Keys == cls.Keys
    && forall d {:trigger GrownAt(cls, cls', rank, fixed, c, d)} :: d in cls ==> GrownAt(cls, cls', rank, fixed, c, d)
  }

  ghost predicate GrownAt(cls: Store, cls': Store, rank: map<nat, nat>, fixed: set<nat>, c: nat, d: nat)
    requires Ranked(cls, rank) && c in cls && d in cls && d in cls'
  {
    && cls'[d].super == cls[d].super && cls'[d].ivars.Some? == cls[d].ivars.Some?
    && (cls[d].resolved || !Up(cls, rank, c, d) ==> cls'[d] == cls[d])
    && (d in fixed ==> cls'[d] == cls[d].(resolved := cls'[d].resolved))
  }

  class Layouts {
    var cls: Store
    ghost var rank: map<nat, nat>
    /** The variables as compiled, and the classes that came with their layout. */
    ghost const declared: map<nat, seq<Ivar>>
    ghost const fixed: set<nat>

    ghost predicate Valid()
      reads this
    {
      Inv(cls, rank, declared, fixed, {})
    }

    /** A program image: nothing is resolved. */
    constructor (image: Store, ghost ranks: map<nat, nat>)
      requires Ranked(image, ranks)
      requires forall c {:trigger image[c]} :: c in image ==>
                 && !image[c].resolved && (image[c].ivars.Some? ==> Compiled(image[c].ivars.value))
                 && (image[c].ivars.None? && image[c].super.None? ==> image[c].size >= 0)
      ensures Valid() && cls == image && rank == ranks && fixed == set c | c in image && image[c].ivars.Some? && image[c].size > 0
    {
      cls, rank := image, ranks;
      declared := map c | c in image && image[c].ivars.Some? :: image[c].ivars.value;
      fixed := set c | c in image && image[c].ivars.Some? && image[c].size > 0;
      new;
      forall c | c in cls ensures Settled(cls, declared, fixed, {}, c) { }
    }

    /** `objc_compute_ivar_offsets` on a class that is marked resolved: it is laid out afterwards,
        and nothing else changes.  A class that was laid out stays as it is. */
    method Compute(c: nat, ghost todo: set<nat>)
      requires Inv(cls, rank, declared, fixed, todo) && c in cls && cls[c].resolved
      modifies this`cls
      ensures Inv(cls, rank, declared, fixed, todo - {c})
      ensures cls.Keys == old(cls).Keys && c in cls && cls == old(cls)[c := cls[c]]
      ensures cls[c] == old(cls)[c].(ivars := cls[c].ivars, size := cls[c].size) && cls[c].ivars.Some? == old(cls)[c].ivars.Some?
      ensures c !in todo || c in fixed ==> cls == old(cls)
      decreases if c in rank then rank[c] else 0
    {
      ghost var cls0 := cls;
      assert Settled(cls, declared, fixed, todo, c);
      var super := cls[c].super;
      if cls[c].ivars == None {
        if super != None {
          SizeIs(cls, rank, declared, fixed, todo, super.value);
          cls := cls[c := cls[c].(size := cls[super.value].size)];
        }
        LaidOutOne(cls0, cls, rank, declared, fixed, todo, c);
        return;
      }
      if cls[c].size <= 0 {
        var start := 0;
        if super != None {
          if cls[super.value].size <= 0 {
            Compute(super.value, todo);
          }
          SizeIs(cls, rank, declared, fixed, todo, super.value);
          start := cls[super.value].size;
        }
        SaneIvars(cls, rank, declared, fixed, todo, c);
        var vs, size := PlaceAll(cls[c].ivars.value, start);
        PlacedLate(cls, rank, declared, fixed, todo, c, vs, size, start);
        cls := cls[c := cls[c].(ivars := Some(vs), size := size)];
      }
      LaidOutOne(cls0, cls, rank, declared, fixed, todo, c);
    }

    /** `class_getSuperclass`. */
    method GetSuperclass(c: nat) returns (super: Option<nat>)
      requires Valid() && c in cls
      modifies this`cls
      ensures Valid() && c in cls && cls[c].resolved && Grown(old(cls), cls, rank, fixed, c) && super == cls[c].super
      decreases if c in rank then rank[c] else 0, 1
    {
      GrownNone(cls, rank, fixed, c);
      if !cls[c].resolved {
        Resolve(c);
      }
      super := cls[c].super;
    }

    /** `objc_resolve_class`, for what it lays out: first the superclass, then the class. */
    method Resolve(c: nat)
      requires Valid() && c in cls
      modifies this`cls
      ensures Valid() && c in cls && cls[c].resolved && Grown(old(cls), cls, rank, fixed, c)
      decreases if c in rank then rank[c] else 0, 0
    {
      GrownNone(cls, rank, fixed, c);
      if cls[c].resolved {
        return;
      }
      if cls[c].super != None {
        var super := cls[c].super.value;
        if !cls[super].resolved {
          Resolve(super);
          GrownUp(old(cls), cls, rank, fixed, c);
        }
      }
      ghost var cls1 := cls;
      cls := cls[c := cls[c].(resolved := true)];
      MarkedInv(cls1, cls, rank, declared, fixed, c);
      ghost var cls2 := cls;
      Compute(c, {c});
      assert {c} - {c} == {};
      GrownLast(old(cls), cls1, cls2, cls, rank, fixed, c);
    }
  }

  lemma GrownNone(cls: Store, rank: map<nat, nat>, fixed: set<nat>, c: nat)
    requires Ranked(cls, rank) && c in cls
    ensures Grown(cls, cls, rank, fixed, c)
  {
    forall d | d in cls ensures GrownAt(cls, cls, rank, fixed, c, d) { }
  }

  lemma {:induction false} UpRank(cls: Store, rank: map<nat, nat>, c: nat, a: nat)
    requires Ranked(cls, rank) && c in cls && Up(cls, rank, c, a)
    ensures a in rank && c in rank && rank[a] <= rank[c]
    decreases if c in rank then rank[c] else 0
  {
    if c != a { UpRank(cls, rank, cls[c].super.value, a); }
  }

  lemma GrownUp(cls: Store, cls': Store, rank: map<nat, nat>, fixed: set<nat>, c: nat)
    requires Ranked(cls, rank) && c in cls && cls[c].super.Some? && Grown(cls, cls', rank, fixed, cls[c].super.value)
    ensures Grown(cls, cls', rank, fixed, c) && c in cls' && cls'[c] == cls[c]
  {
    var s := cls[c].super.value;
    forall d | d in cls ensures GrownAt(cls, cls', rank, fixed, c, d) {
      assert GrownAt(cls, cls', rank, fixed, s, d);
    }
    if Up(cls, rank, s, c) { UpRank(cls, rank, s, c); }
    assert GrownAt(cls, cls', rank, fixed, s, c);
  }

  lemma GrownLast(cls: Store, cls1: Store, cls2: Store, cls3: Store, rank: map<nat, nat>, fixed: set<nat>, c: nat)
    requires Ranked(cls, rank) && c in cls && !cls[c].resolved && Grown(cls, cls1, rank, fixed, c) && cls1[c] == cls[c]
    requires cls2 == cls1[c := cls1[c].(resolved := true)] && c in cls3 && cls3 == cls2[c := cls3[c]]
    requires cls3[c].super == cls2[c].super && cls3[c].ivars.Some? == cls2[c].ivars.Some? && (c in fixed ==> cls3 == cls2)
    ensures Grown(cls, cls3, rank, fixed, c)
  {
    forall d | d in cls ensures GrownAt(cls, cls3, rank, fixed, c, d) {
      assert GrownAt(cls, cls1, rank, fixed, c, d);
    }
  }

  /** Marking a class resolved once its superclass is. */
  lemma MarkedInv(cls: Store, cls': Store, rank: map<nat, nat>, declared: map<nat, seq<Ivar>>, fixed: set<nat>, c: nat)
    requires Inv(cls, rank, declared, fixed, {}) && c in cls && !cls[c].resolved && cls' == cls[c := cls[c].(resolved := true)]
    requires cls[c].super.Some? ==> cls[cls[c].super.value].resolved
    ensures Inv(cls', rank, declared, fixed, {c})
  {
    forall d | d in cls' ensures Settled(cls', declared, fixed, {c}, d) {
      assert Settled(cls, declared, fixed, {}, d);
    }
  }

  lemma SaneIvars(cls: Store, rank: map<nat, nat>, declared: map<nat, seq<Ivar>>, fixed: set<nat>, todo: set<nat>, c: nat)
    requires Inv(cls, rank, declared, fixed, todo) && c in cls && cls[c].resolved && cls[c].ivars.Some? && cls[c].size <= 0
    ensures Sane(cls[c].ivars.value)
  {
    assert Settled(cls, declared, fixed, todo, c);
    if c in todo {
      assert Compiled(declared[c]);
    } else {
      var ds, vs := declared[c], cls[c].ivars.value;
      assert Compiled(ds);
      forall i | 0 <= i < |vs| ensures vs[i].align > 0 && vs[i].offset >= LONG_MIN {
        var b := Base(ds, i);
        BaseIsBase(ds, i);
        FromStart(ds, vs, Start(cls, c), b);
        assert PlacedAt(ds, vs, Start(cls, c), i) && vs[i] == Fixed(ds[i]).(offset := vs[i].offset);
        assert ds[i].align > 0 && ds[b].align > 0;
      }
    }
  }

  /** What the loop leaves is a layout, and the one there was if the class had one. */
  lemma PlacedLate(cls: Store, rank: map<nat, nat>, declared: map<nat, seq<Ivar>>, fixed: set<nat>, todo: set<nat>, c: nat, vs: seq<Ivar>, size: int, start: int)
    requires Inv(cls, rank, declared, fixed, todo) && c in cls && cls[c].resolved && cls[c].ivars.Some? && cls[c].size <= 0 && start == Start(cls, c) >= 0
    requires SameVars(cls[c].ivars.value, vs, |vs|) && Placed(cls[c].ivars.value, vs, start, |vs|) && size == Before(cls[c].ivars.value, vs, start, |vs|)
    ensures c !in fixed && c in declared
    ensures c in todo ==> SameVars(declared[c], vs, |declared[c]|) && Placed(declared[c], vs, start, |declared[c]|) && size == Before(declared[c], vs, start, |declared[c]|) >= start
    ensures c !in todo ==> vs == cls[c].ivars.value && size == cls[c].size
  {
    assert Settled(cls, declared, fixed, todo, c);
    SizeFromStart(cls[c].ivars.value, vs, start);
    if c !in todo {
      var ds, ws := declared[c], cls[c].ivars.value;
      forall i | 0 <= i < |ws| ensures vs[i] == ws[i] { EmptyAgain(ds, ws, vs, i); }
      if |ws| > 0 { EmptyAgain(ds, ws, vs, |ws| - 1); }
    }
  }

  lemma LaidOutOne(cls: Store, cls': Store, rank: map<nat, nat>, declared: map<nat, seq<Ivar>>, fixed: set<nat>, todo: set<nat>, c: nat)
    requires Inv(cls, rank, declared, fixed, todo) && c in cls && cls[c].resolved && c in cls' && cls' == cls[c := cls'[c]]
    requires cls'[c].super == cls[c].super && cls'[c].resolved && cls'[c].ivars.Some? == cls[c].ivars.Some?
    requires c !in todo || c in fixed ==> cls' == cls
    requires c !in fixed ==> LaidOut(cls', declared, c)
    ensures Inv(cls', rank, declared, fixed, todo - {c})
  {
    forall d | d in cls' ensures Settled(cls', declared, fixed, todo - {c}, d) {
      assert Settled(cls, declared, fixed, todo, d);
      if d != c && cls[d].super == Some(c) && c in todo { assert !cls[d].resolved || d in todo; }
    }
  }
}
