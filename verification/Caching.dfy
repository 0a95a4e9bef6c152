/** What a series of installations may change, and what the version counter promises
    about cached slots. */
module Caching {
  import opened Basics
  import opened Hierarchy
  import opened SparseArrays
  import opened MethodLookup
  import opened Installing
  import opened Spreading
  import opened Building

  /** While the counter stands still, a slot that was found stays the answer. */
  ghost predicate Cached(hs: map<nat, nat>, ts: map<nat, Table>, version: nat, ts': map<nat, Table>, version': nat) {
    && version <= version'
    && (version == version' ==> forall d, sel: nat {:trigger Slot(hs, ts', d, sel)} :: Slot(hs, ts, d, sel).Some? ==> Slot(hs, ts', d, sel) == Slot(hs, ts, d, sel))
  }

  /** The slot that class `d` dispatches `sel` to. */
  ghost function Slot(hs: map<nat, nat>, ts: map<nat, Table>, d: nat, sel: nat): Option<Method> {
    if d in hs && hs[d] in ts then Entry(ts[hs[d]].entries, sel) else None
  }

  lemma CachedTrans(hs: map<nat, nat>, ts0: map<nat, Table>, v0: nat, ts1: map<nat, Table>, v1: nat, ts2: map<nat, Table>, v2: nat)
    requires Cached(hs, ts0, v0, ts1, v1) && Cached(hs, ts1, v1, ts2, v2)
    ensures Cached(hs, ts0, v0, ts2, v2)
  {
    if v0 == v2 {
      forall d, sel: nat | Slot(hs, ts0, d, sel).Some? ensures Slot(hs, ts2, d, sel) == Slot(hs, ts0, d, sel) {
        assert Slot(hs, ts1, d, sel) == Slot(hs, ts0, d, sel);
      }
    }
  }

  /** An installation that met no entry invalidates nothing. */
  lemma InstallCached(cls: Store, rank: map<nat, nat>, hs: map<nat, nat>, ts: map<nat, Table>, ts': map<nat, Table>,
                      m: Method, was: Option<Method>, c: nat, v: nat, v': nat)
    requires Ranked(cls, rank) && Separate(hs, ts) && c in hs && was == Entry(ts[hs[c]].entries, m.selector)
    requires SpreadAll(cls, rank, hs, ts, ts', m, was, c) && v <= v' && (was.Some? ==> v < v')
    ensures Cached(hs, ts, v, ts', v')
  {
    if v == v' {
      forall d, sel: nat | Slot(hs, ts, d, sel).Some? ensures Slot(hs, ts', d, sel) == Slot(hs, ts, d, sel) {
        assert ts'[hs[d]].entries == ts'[hs[d]].entries;
        assert d in cls && d != c && Hit(cls, rank, TabsOf(hs, ts), m.selector, was, c, d) ==> Entry(TabsOf(hs, ts)[d], m.selector) == was;
      }
    }
  }

  /** The only entries of `d` that may have changed are those it shared with `inh`. */
  ghost predicate OnlyInherited(hs: map<nat, nat>, ts: map<nat, Table>, ts': map<nat, Table>, inh: Entries, d: nat) {
    forall sel: nat {:trigger Slot(hs, ts', d, sel)} :: Slot(hs, ts', d, sel) == Slot(hs, ts, d, sel) || Slot(hs, ts, d, sel) == Entry(inh, sel)
  }

  /** Tables outside the subtree of `c` are untouched, and inside it only inherited entries change. */
  ghost predicate Disturbed(cls: Store, rank: map<nat, nat>, hs: map<nat, nat>, ts: map<nat, Table>, ts': map<nat, Table>, c: nat, inh: Entries)
    requires Ranked(cls, rank)
  {
    forall d {:trigger OnlyInherited(hs, ts, ts', inh, d)} :: d in hs && d in cls && hs[d] in ts ==>
      && hs[d] in ts'
      && ts'[hs[d]].shift == ts[hs[d]].shift
      && OnlyInherited(hs, ts, ts', inh, d)
      && (!Desc(cls, rank, d, c) ==> ts'[hs[d]] == ts[hs[d]])
  }

  /** What `installMethodInDtable` answers, writes and invalidates. */
  ghost predicate InstallResult(cls: Store, rank: map<nat, nat>, hs: map<nat, nat>, ts: map<nat, Table>, ts': map<nat, Table>,
                                c: nat, m: Method, toReplace: Option<Method>, replaceExisting: bool, done: bool, version: nat, version': nat)
    requires Ranked(cls, rank) && Separate(hs, ts) && c in hs
  {
    var was := Entry(ts[hs[c]].entries, m.selector);
    && done == Replaces(was, m, toReplace, replaceExisting)
    && version' >= version
    && if done
       then SpreadAll(cls, rank, hs, ts, ts', m, was, c) && (was.Some? ==> version' > version)
       else ts' == ts && version' == version
  }

  /** The table being made for `c` holds the methods `ms` over what it inherits. */
  ghost predicate Overlaid(cls: Store, rank: map<nat, nat>, hs: map<nat, nat>, ts0: map<nat, Table>, ts: map<nat, Table>,
                           c: nat, inh: Entries, ms: seq<Method>, v0: nat, v: nat)
    requires Ranked(cls, rank)
  {
    && ts.Keys == ts0.Keys
    && c in hs && hs[c] in ts && ts[hs[c]].entries == Overlay(inh, ms) && ts[hs[c]].shift == ts0[hs[c]].shift
    && (forall x {:trigger ts[x]} :: x in ts0 && x !in hs.Values ==> ts[x] == ts0[x])
    && Disturbed(cls, rank, hs - {c}, ts0, ts, c, inh)
    && Cached(hs - {c}, ts0, v0, ts, v)
  }

  lemma OverlayDisturbs(cls: Store, rank: map<nat, nat>, hs: map<nat, nat>, ts0: map<nat, Table>, ts: map<nat, Table>, ts': map<nat, Table>,
                        c: nat, inh: Entries, m: Method)
    requires Ranked(cls, rank) && Separate(hs, ts) && c in hs && c in cls && ts.Keys == ts0.Keys
    requires Disturbed(cls, rank, hs - {c}, ts0, ts, c, inh)
    requires SpreadAll(cls, rank, hs, ts, ts', m, Entry(inh, m.selector), c)
    ensures Disturbed(cls, rank, hs - {c}, ts0, ts', c, inh)
  {
    var rest := hs - {c};
    forall d | d in rest && d in cls && rest[d] in ts0
      ensures rest[d] in ts' && ts'[rest[d]].shift == ts0[rest[d]].shift
      ensures OnlyInherited(rest, ts0, ts', inh, d)
      ensures !Desc(cls, rank, d, c) ==> ts'[rest[d]] == ts0[rest[d]]
    {
      assert OnlyInherited(rest, ts0, ts, inh, d) && rest[d] == hs[d];
      assert ts'[hs[d]].shift == ts[hs[d]].shift;
      var tabs := TabsOf(hs, ts);
      if Hit(cls, rank, tabs, m.selector, Entry(inh, m.selector), c, d) {
        HitDesc(cls, rank, tabs, m.selector, Entry(inh, m.selector), c, d);
        assert Entry(tabs[d], m.selector) == Entry(inh, m.selector);
      }
      forall sel: nat ensures Slot(rest, ts', d, sel) == Slot(rest, ts0, d, sel) || Slot(rest, ts0, d, sel) == Entry(inh, sel) {
        assert Slot(rest, ts, d, sel) == Slot(rest, ts0, d, sel) || Slot(rest, ts0, d, sel) == Entry(inh, sel);
      }
    }
  }

  lemma CachedFewer(hs: map<nat, nat>, c: nat, ts: map<nat, Table>, v: nat, ts': map<nat, Table>, v': nat)
    requires Cached(hs, ts, v, ts', v')
    ensures Cached(hs - {c}, ts, v, ts', v')
  {
    if v == v' {
      forall d, sel: nat | Slot(hs - {c}, ts, d, sel).Some? ensures Slot(hs - {c}, ts', d, sel) == Slot(hs - {c}, ts, d, sel) {
        assert Slot(hs, ts', d, sel) == Slot(hs, ts, d, sel);
      }
    }
  }

  lemma OverlayStep(cls: Store, rank: map<nat, nat>, hs: map<nat, nat>, ts0: map<nat, Table>, ts: map<nat, Table>, ts': map<nat, Table>,
                    c: nat, inh: Entries, ms: seq<Method>, m: Method, done: bool, v0: nat, v: nat, v': nat)
    requires Ranked(cls, rank) && Separate(hs, ts) && c in cls
    requires Overlaid(cls, rank, hs, ts0, ts, c, inh, ms, v0, v)
    requires InstallResult(cls, rank, hs, ts, ts', c, m, Entry(inh, m.selector), true, done, v, v')
    ensures Overlaid(cls, rank, hs, ts0, ts', c, inh, ms + [m], v0, v')
  {
    assert (ms + [m])[..|ms + [m]| - 1] == ms;
    if done {
      InstallCached(cls, rank, hs, ts, ts', m, Entry(ts[hs[c]].entries, m.selector), c, v, v');
      CachedFewer(hs, c, ts, v, ts', v');
      CachedTrans(hs - {c}, ts0, v0, ts, v, ts', v');
      OverlayDisturbs(cls, rank, hs, ts0, ts, ts', c, inh, m);
      assert Hit(cls, rank, TabsOf(hs, ts), m.selector, Entry(inh, m.selector), c, c);
      assert ts'[hs[c]].entries == ts[hs[c]].entries[m.selector := m];
    }
  }
}
