/** Installing a whole table of methods, selector by selector in increasing order. */
module Batching {
  import opened Basics
  import opened Hierarchy
  import opened SparseArrays
  import opened MethodLookup
  import opened Installing
  import opened Spreading
  import opened Caching

  /** The recursion looks at one selector only. */
  lemma {:induction false} HitSelector(cls: Store, rank: map<nat, nat>, tabs: map<nat, Entries>, tabs': map<nat, Entries>, sel: nat, was: Option<Method>, c: nat, d: nat)
    requires Ranked(cls, rank) && d in cls && tabs.Keys == tabs'.Keys
    requires forall e {:trigger tabs'[e]} :: e in tabs ==> Entry(tabs'[e], sel) == Entry(tabs[e], sel)
    ensures Hit(cls, rank, tabs, sel, was, c, d) <==> Hit(cls, rank, tabs', sel, was, c, d)
    decreases if d in rank then rank[d] else 0
  {
    assert SuperOk(cls, rank, d);
    if d in tabs { assert Entry(tabs'[d], sel) == Entry(tabs[d], sel); }
    if d != c && cls[d].super.Some? { HitSelector(cls, rank, tabs, tabs', sel, was, c, cls[d].super.value); }
  }

  /** The selectors up to `idx` are done. */
  ghost predicate BatchUpTo(cls: Store, rank: map<nat, nat>, hs: map<nat, nat>, ts0: map<nat, Table>, ts: map<nat, Table>,
                            c: nat, batch: Entries, inh: Entries, idx: nat)
    requires Ranked(cls, rank) && Separate(hs, ts0) && c in hs
  {
    && ts.Keys == ts0.Keys
    && (forall t {:trigger ts[t]} :: t in ts0 ==> ts[t].shift == ts0[t].shift)
    && forall d, sel: nat {:trigger Entry(ts[hs[d]].entries, sel)} :: d in hs ==>
         Entry(ts[hs[d]].entries, sel) ==
           if sel <= idx then BatchEntry(cls, rank, TabsOf(hs, ts0), c, batch, inh, d, sel) else Entry(ts0[hs[d]].entries, sel)
  }

  lemma BatchStep(cls: Store, rank: map<nat, nat>, hs: map<nat, nat>, ts0: map<nat, Table>, ts: map<nat, Table>, ts': map<nat, Table>,
                  c: nat, batch: Entries, inh: Entries, idx: nat, next: nat, done: bool, v: nat, v': nat)
    requires Ranked(cls, rank) && Separate(hs, ts0) && Separate(hs, ts) && c in hs && c in cls
    requires BatchUpTo(cls, rank, hs, ts0, ts, c, batch, inh, idx)
    requires idx < next && next in batch && batch[next].selector == next && forall k :: idx < k < next ==> k !in batch
    requires InstallResult(cls, rank, hs, ts, ts', c, batch[next], Entry(inh, next), true, done, v, v')
    ensures BatchUpTo(cls, rank, hs, ts0, ts', c, batch, inh, next)
  {
    var tabs0, tabs := TabsOf(hs, ts0), TabsOf(hs, ts);
    var was := Entry(ts0[hs[c]].entries, next);
    assert Entry(ts[hs[c]].entries, next) == was;
    forall d, sel: nat | d in hs
      ensures Entry(ts'[hs[d]].entries, sel) ==
              if sel <= next then BatchEntry(cls, rank, tabs0, c, batch, inh, d, sel) else Entry(ts0[hs[d]].entries, sel)
    {
      forall e | e in tabs0 ensures Entry(tabs[e], next) == Entry(tabs0[e], next) {
        assert Entry(ts[hs[e]].entries, next) == Entry(ts0[hs[e]].entries, next);
      }
      if d in cls { HitSelector(cls, rank, tabs0, tabs, next, was, c, d); }
      assert Entry(ts[hs[d]].entries, sel) == Entry(ts[hs[d]].entries, sel);
      if done { assert ts'[hs[d]].entries == ts'[hs[d]].entries; }
    }
  }

  lemma BatchDone(cls: Store, rank: map<nat, nat>, hs: map<nat, nat>, ts0: map<nat, Table>, ts: map<nat, Table>,
                  c: nat, batch: Entries, inh: Entries, idx: nat)
    requires Ranked(cls, rank) && Separate(hs, ts0) && Separate(hs, ts) && c in hs && BatchUpTo(cls, rank, hs, ts0, ts, c, batch, inh, idx)
    requires forall k :: idx < k ==> k !in batch
    ensures BatchInstalled(cls, rank, TabsOf(hs, ts0), c, batch, inh, TabsOf(hs, ts))
  {
    var tabs0, tabs := TabsOf(hs, ts0), TabsOf(hs, ts);
    forall d, sel: nat | d in tabs0 ensures Entry(tabs[d], sel) == BatchEntry(cls, rank, tabs0, c, batch, inh, d, sel) {
      assert Entry(ts[hs[d]].entries, sel) == Entry(tabs[d], sel);
    }
  }

  lemma BatchStart(cls: Store, rank: map<nat, nat>, hs: map<nat, nat>, ts: map<nat, Table>, c: nat, batch: Entries, inh: Entries)
    requires Ranked(cls, rank) && Separate(hs, ts) && c in hs && 0 !in batch
    ensures BatchUpTo(cls, rank, hs, ts, ts, c, batch, inh, 0)
  {
  }
}
