/** How one installation spreads over the subclass tree, one subclass at a time. */
module Spreading {
  import opened Basics
  import opened Hierarchy
  import opened MethodLookup
  import opened Installing
  import opened SparseArrays

  /** The entries of each class's table, given the handles of the tables. */
  ghost function TabsOf(hs: map<nat, nat>, ts: map<nat, Table>): map<nat, Entries> {
    map d | d in hs && hs[d] in ts :: EntriesOf(ts, hs[d])
  }

  function EntriesOf(ts: map<nat, Table>, t: nat): Entries
    requires t in ts
  {
    ts[t].entries
  }

  /** Each class has a table of its own. */
  ghost predicate Separate(hs: map<nat, nat>, ts: map<nat, Table>) {
    && (forall d {:trigger hs[d]} :: d in hs ==> hs[d] in ts)
    && forall d, e {:trigger OwnTable(hs, d, e)} :: OwnTable(hs, d, e)
  }

  ghost predicate OwnTable(hs: map<nat, nat>, d: nat, e: nat) {
    d in hs && e in hs && hs[d] == hs[e] ==> d == e
  }

  lemma {:induction false} HitDesc(cls: Store, rank: map<nat, nat>, tabs: map<nat, Entries>, sel: nat, was: Option<Method>, c: nat, d: nat)
    requires Ranked(cls, rank) && d in cls && Hit(cls, rank, tabs, sel, was, c, d)
    ensures Desc(cls, rank, d, c)
    decreases if d in rank then rank[d] else 0
  {
    assert SuperOk(cls, rank, d);
    if d != c { HitDesc(cls, rank, tabs, sel, was, c, cls[d].super.value); }
  }

  lemma {:induction false} SiblingsDisjoint(cls: Store, rank: map<nat, nat>, d: nat, x: nat, y: nat)
    requires Ranked(cls, rank) && d in cls && x in cls && y in cls && cls[x].super.Some? && cls[x].super == cls[y].super
    requires Desc(cls, rank, d, x) && Desc(cls, rank, d, y)
    ensures x == y
    decreases if d in rank then rank[d] else 0
  {
    assert SuperOk(cls, rank, d) && SuperOk(cls, rank, x) && SuperOk(cls, rank, y);
    if d == x {
      if x != y { DescUp(cls, rank, cls[x].super.value, y); }
    } else if d == y {
      DescUp(cls, rank, cls[y].super.value, x);
    } else {
      SiblingsDisjoint(cls, rank, cls[d].super.value, x, y);
    }
  }

  /** Through its subclass `sub`, the installation in `c` reaches what one in `sub` would. */
  lemma {:induction false} HitThrough(cls: Store, rank: map<nat, nat>, tabs: map<nat, Entries>, sel: nat, was: Option<Method>, c: nat, sub: nat, d: nat)
    requires Ranked(cls, rank) && d in cls && sub in cls && cls[sub].super == Some(c) && Desc(cls, rank, d, sub)
    ensures Hit(cls, rank, tabs, sel, was, c, d) <==>
            sub in tabs && Entry(tabs[sub], sel) == was && Hit(cls, rank, tabs, sel, was, sub, d)
    decreases if d in rank then rank[d] else 0
  {
    assert SuperOk(cls, rank, d) && SuperOk(cls, rank, sub);
    if d != sub {
      HitThrough(cls, rank, tabs, sel, was, c, sub, cls[d].super.value);
      if d == c { DescUp(cls, rank, cls[d].super.value, sub); }
    } else {
      assert Hit(cls, rank, tabs, sel, was, c, c);
    }
  }

  lemma {:induction false} HitSame(cls: Store, rank: map<nat, nat>, tabs: map<nat, Entries>, tabs': map<nat, Entries>, sel: nat, was: Option<Method>, sub: nat, d: nat)
    requires Ranked(cls, rank) && d in cls && Desc(cls, rank, d, sub) && tabs.Keys == tabs'.Keys
    requires forall e {:trigger tabs'[e]} :: e in tabs && e in cls && Desc(cls, rank, e, sub) ==> tabs'[e] == tabs[e]
    ensures Hit(cls, rank, tabs, sel, was, sub, d) <==> Hit(cls, rank, tabs', sel, was, sub, d)
    decreases if d in rank then rank[d] else 0
  {
    assert SuperOk(cls, rank, d);
    if d != sub { HitSame(cls, rank, tabs, tabs', sel, was, sub, cls[d].super.value); }
  }

  /** `d` is `c` or lies below one of the first `i` subclasses in `xs`. */
  ghost predicate Under(cls: Store, rank: map<nat, nat>, c: nat, xs: seq<nat>, i: nat, d: nat)
    requires Ranked(cls, rank) && i <= |xs| && d in cls
  {
    d == c || exists j :: 0 <= j < i && Desc(cls, rank, d, xs[j])
  }

  /** The tables after the method has reached `c` and its first `i` subclasses. */
  ghost predicate Spread(cls: Store, rank: map<nat, nat>, hs: map<nat, nat>, ts: map<nat, Table>, ts': map<nat, Table>,
                         m: Method, was: Option<Method>, c: nat, xs: seq<nat>, i: nat)
    requires Ranked(cls, rank) && i <= |xs| && Separate(hs, ts)
  {
    && ts'.Keys == ts.Keys
    && (forall t {:trigger ts'[t]} :: t in ts ==> ts'[t].shift == ts[t].shift && (t !in hs.Values ==> ts'[t] == ts[t]))
    && forall d {:trigger ts'[hs[d]]} :: d in hs ==> ts'[hs[d]] == SpreadTo(cls, rank, hs, ts, m, was, c, xs, i, d)
  }

  ghost function SpreadTo(cls: Store, rank: map<nat, nat>, hs: map<nat, nat>, ts: map<nat, Table>,
                          m: Method, was: Option<Method>, c: nat, xs: seq<nat>, i: nat, d: nat): Table
    requires Ranked(cls, rank) && i <= |xs| && d in hs && hs[d] in ts
  {
    if d in cls && Under(cls, rank, c, xs, i, d) && Hit(cls, rank, TabsOf(hs, ts), m.selector, was, c, d)
    then Put(ts[hs[d]], m.selector, Some(m))
    else ts[hs[d]]
  }

  /** The tables after the method has reached everything it can. */
  ghost predicate SpreadAll(cls: Store, rank: map<nat, nat>, hs: map<nat, nat>, ts: map<nat, Table>, ts': map<nat, Table>,
                            m: Method, was: Option<Method>, c: nat)
    requires Ranked(cls, rank) && Separate(hs, ts)
  {
    && ts'.Keys == ts.Keys
    && (forall t {:trigger ts'[t]} :: t in ts ==> ts'[t].shift == ts[t].shift && (t !in hs.Values ==> ts'[t] == ts[t]))
    && forall d {:trigger ts'[hs[d]]} :: d in hs ==>
         ts'[hs[d]] ==
           if d in cls && Hit(cls, rank, TabsOf(hs, ts), m.selector, was, c, d) then Put(ts[hs[d]], m.selector, Some(m)) else ts[hs[d]]
  }

  ghost predicate Subclasses(cls: Store, hs: map<nat, nat>, c: nat, xs: seq<nat>) {
    && (forall j {:trigger xs[j]} :: 0 <= j < |xs| ==> xs[j] in cls && cls[xs[j]].super == Some(c))
    && Distinct(xs)
    && forall d :: d in hs && d in cls && cls[d].super == Some(c) ==> d in xs
  }

  /** Subclass `xs[i]` is done: the recursive call either spread the method below it or
      found another entry there, or the subclass has no table. */
  lemma SpreadStep(cls: Store, rank: map<nat, nat>, hs: map<nat, nat>, ts0: map<nat, Table>, ts: map<nat, Table>, ts': map<nat, Table>,
                   m: Method, was: Option<Method>, c: nat, xs: seq<nat>, i: nat, d: nat)
    requires Ranked(cls, rank) && Separate(hs, ts0) && c in cls && Subclasses(cls, hs, c, xs) && i < |xs| && d in hs
    requires Spread(cls, rank, hs, ts0, ts, m, was, c, xs, i)
    requires xs[i] in hs && Entry(ts[hs[xs[i]]].entries, m.selector) == was ==> SpreadAll(cls, rank, hs, ts, ts', m, was, xs[i])
    requires !(xs[i] in hs && Entry(ts[hs[xs[i]]].entries, m.selector) == was) ==> ts' == ts
    ensures hs[d] in ts' && ts'[hs[d]] == SpreadTo(cls, rank, hs, ts0, m, was, c, xs, i + 1, d)
  {
    var sub := xs[i];
    assert SuperOk(cls, rank, sub);
    if d in cls {
      if Desc(cls, rank, d, sub) {
        forall e | e in hs && e in cls && Desc(cls, rank, e, sub) ensures !Under(cls, rank, c, xs, i, e) {
          NotUnder(cls, rank, c, xs, i, e);
        }
        assert Under(cls, rank, c, xs, i + 1, d);
        HitThrough(cls, rank, TabsOf(hs, ts0), m.selector, was, c, sub, d);
        HitSame(cls, rank, TabsOf(hs, ts0), TabsOf(hs, ts), m.selector, was, sub, d);
      } else {
        if Hit(cls, rank, TabsOf(hs, ts), m.selector, was, sub, d) {
          HitDesc(cls, rank, TabsOf(hs, ts), m.selector, was, sub, d);
        }
        assert Under(cls, rank, c, xs, i + 1, d) <==> Under(cls, rank, c, xs, i, d);
      }
    }
  }

  lemma NotUnder(cls: Store, rank: map<nat, nat>, c: nat, xs: seq<nat>, i: nat, e: nat)
    requires Ranked(cls, rank) && i < |xs| && e in cls && c in cls && Distinct(xs)
    requires forall j {:trigger xs[j]} :: 0 <= j < |xs| ==> xs[j] in cls && cls[xs[j]].super == Some(c)
    requires Desc(cls, rank, e, xs[i])
    ensures !Under(cls, rank, c, xs, i, e)
  {
    assert SuperOk(cls, rank, xs[i]);
    if e == c { DescUp(cls, rank, c, xs[i]); }
    forall j | 0 <= j < i && Desc(cls, rank, e, xs[j]) ensures false {
      SiblingsDisjoint(cls, rank, e, xs[i], xs[j]);
    }
  }

  /** When every subclass has been visited, everything reachable has been reached. */
  lemma SpreadDone(cls: Store, rank: map<nat, nat>, hs: map<nat, nat>, ts: map<nat, Table>, ts': map<nat, Table>,
                   m: Method, was: Option<Method>, c: nat, xs: seq<nat>)
    requires Ranked(cls, rank) && Separate(hs, ts) && c in cls && Subclasses(cls, hs, c, xs)
    requires Spread(cls, rank, hs, ts, ts', m, was, c, xs, |xs|)
    ensures SpreadAll(cls, rank, hs, ts, ts', m, was, c)
  {
    forall d | d in hs && d in cls && Hit(cls, rank, TabsOf(hs, ts), m.selector, was, c, d)
      ensures Under(cls, rank, c, xs, |xs|, d)
    {
      HitUnder(cls, rank, hs, TabsOf(hs, ts), m.selector, was, c, xs, d);
    }
  }

  lemma {:induction false} HitUnder(cls: Store, rank: map<nat, nat>, hs: map<nat, nat>, tabs: map<nat, Entries>, sel: nat, was: Option<Method>, c: nat, xs: seq<nat>, d: nat)
    requires Ranked(cls, rank) && d in cls && c in cls && Subclasses(cls, hs, c, xs) && tabs.Keys <= hs.Keys
    requires Hit(cls, rank, tabs, sel, was, c, d)
    ensures Under(cls, rank, c, xs, |xs|, d)
    decreases if d in rank then rank[d] else 0
  {
    assert SuperOk(cls, rank, d);
    if d != c {
      var s := cls[d].super.value;
      if s == c {
        assert d in xs;
        var j :| 0 <= j < |xs| && xs[j] == d;
        assert Desc(cls, rank, d, xs[j]);
      } else {
        HitUnder(cls, rank, hs, tabs, sel, was, c, xs, s);
        var j :| 0 <= j < |xs| && Desc(cls, rank, s, xs[j]);
        assert Desc(cls, rank, d, xs[j]);
      }
    }
  }
}
