/** `rebaseDtableRecursive` on one table. */
module Rebasing {
  import opened Basics
  import opened Trie
  import opened SparseArrays
  import opened MethodLookup
  import opened Building
  import Enumeration

  /** Every entry lies where `SparseArrayNext` finds it, below `n`. */
  ghost predicate Scannable(t: Table, n: nat) {
    && ((t.shift == 0 && n < Enumeration.Limit(0)) || (t.shift == 8 && n <= Enumeration.Limit(8)))
    && forall sel :: sel in t.entries ==> 1 <= sel < n
  }

  /** The entries after the parent's entries up to `idx` were copied where `s` had none. */
  ghost predicate FilledUpTo(t0: Entries, s0: Entries, p: Entries, t: Entries, s: Entries, idx: nat) {
    forall sel: nat {:trigger Entry(t, sel)} {:trigger Entry(s, sel)} ::
      if sel <= idx && Entry(s0, sel) == None && Entry(p, sel).Some?
      then Entry(t, sel) == Entry(p, sel) && Entry(s, sel) == Entry(p, sel)
      else Entry(t, sel) == Entry(t0, sel) && Entry(s, sel) == Entry(s0, sel)
  }

  /** The entries after those up to `idx` that `s` does not have were removed. */
  ghost predicate PrunedUpTo(t0: Entries, s: Entries, t: Entries, idx: nat) {
    forall sel: nat {:trigger Entry(t, sel)} :: Entry(t, sel) == if sel <= idx && Entry(s, sel) == None then None else Entry(t0, sel)
  }

  method NextEntry(a: Arena, t: nat, idx: nat, n: nat) returns (m: Option<Method>, next: nat)
    requires a.Valid() && t in a.tables && Scannable(a.tables[t], n) && (idx == 0 || idx < n)
    ensures m.Some? ==> idx < next < n && Entry(a.tables[t].entries, next) == m && forall k :: idx < k < next ==> k !in a.tables[t].entries
    ensures m.None? ==> forall k :: idx < k ==> k !in a.tables[t].entries
  {
    if n == 0 {
      return None, idx;
    }
    m, next := a.Next(t, idx, 0);
  }

  /** The tables in which `t` holds `te` and `seen` holds `se`. */
  ghost predicate Holding(ts0: map<nat, Table>, ts: map<nat, Table>, t: nat, te: Entries, seen: nat, se: Entries) {
    t in ts0 && seen in ts0 && ts == ts0[t := ts0[t].(entries := te)][seen := ts0[seen].(entries := se)]
  }

  /** One turn of the loop over the parent's table. */
  method FillOne(a: Arena, t: nat, seen: nat, next: nat, m: Method, n: nat, ghost ts0: map<nat, Table>, ghost te: Entries, ghost se: Entries)
    returns (ghost te': Entries, ghost se': Entries)
    requires a.Valid() && Holding(ts0, a.tables, t, te, seen, se) && t != seen && ts0[t].shift == ts0[seen].shift
    requires Scannable(a.tables[t], n) && Scannable(a.tables[seen], n) && 1 <= next < n
    modifies a
    ensures a.Valid() && Holding(ts0, a.tables, t, te', seen, se')
    ensures Scannable(a.tables[t], n) && Scannable(a.tables[seen], n)
    ensures if Entry(se, next) == None then te' == te[next := m] && se' == se[next := m] else te' == te && se' == se
  {
    te', se' := te, se;
    var had := a.Read(seen, next);
    if had == None {
      a.Insert(t, next, Some(m));
      a.Insert(seen, next, Some(m));
      te', se' := te[next := m], se[next := m];
      TwoPuts(ts0, a.tables, t, te', seen, se');
    }
  }

  /** The loop over the parent's table. */
  method FillFrom(a: Arena, parent: nat, t: nat, seen: nat, n: nat) returns (ghost te: Entries, ghost se: Entries)
    requires a.Valid() && parent in a.tables && t in a.tables && seen in a.tables && parent != t && parent != seen && t != seen
    requires Scannable(a.tables[parent], n) && Scannable(a.tables[t], n) && Scannable(a.tables[seen], n)
    requires a.tables[t].shift == a.tables[parent].shift == a.tables[seen].shift
    modifies a
    ensures a.Valid() && Holding(old(a.tables), a.tables, t, te, seen, se)
    ensures Scannable(a.tables[t], n) && Scannable(a.tables[seen], n)
    ensures FilledUpTo(old(a.tables)[t].entries, old(a.tables)[seen].entries, old(a.tables)[parent].entries, te, se, n)
  {
    ghost var ts0 := a.tables;
    ghost var t0, s0, p := ts0[t].entries, ts0[seen].entries, ts0[parent].entries;
    te, se := t0, s0;
    assert a.tables == ts0[t := ts0[t].(entries := te)][seen := ts0[seen].(entries := se)];
    var idx := 0;
    var m, next := NextEntry(a, parent, idx, n);
    while m != None
      invariant a.Valid() && Holding(ts0, a.tables, t, te, seen, se) && FilledUpTo(t0, s0, p, te, se, idx)
      invariant Scannable(a.tables[t], n) && Scannable(a.tables[seen], n) && (idx == 0 || idx < n)
      invariant m.Some? ==> idx < next < n && Entry(p, next) == m && forall k :: idx < k < next ==> k !in p
      invariant m.None? ==> forall k :: idx < k ==> k !in p
      decreases n - idx
    {
      FillStep(t0, s0, p, te, se, idx, next);
      te, se := FillOne(a, t, seen, next, m.value, n, ts0, te, se);
      idx := next;
      m, next := NextEntry(a, parent, idx, n);
    }
    FillDone(t0, s0, p, te, se, idx, n);
  }

  lemma FillStep(t0: Entries, s0: Entries, p: Entries, t: Entries, s: Entries, idx: nat, next: nat)
    requires FilledUpTo(t0, s0, p, t, s, idx) && idx < next && next in p && forall k :: idx < k < next ==> k !in p
    ensures Entry(s, next) == None ==> FilledUpTo(t0, s0, p, t[next := p[next]], s[next := p[next]], next)
    ensures Entry(s, next) != None ==> FilledUpTo(t0, s0, p, t, s, next)
  {
    var t', s' := t[next := p[next]], s[next := p[next]];
    forall sel: nat ensures Entry(p, sel).Some? <==> sel in p { }
    forall sel: nat | sel != next ensures Entry(t', sel) == Entry(t, sel) && Entry(s', sel) == Entry(s, sel) { }
  }

  lemma FillDone(t0: Entries, s0: Entries, p: Entries, t: Entries, s: Entries, idx: nat, n: nat)
    requires FilledUpTo(t0, s0, p, t, s, idx) && (forall k :: idx < k ==> k !in p) && (idx == 0 || idx < n)
    requires forall k :: k in p ==> 1 <= k < n
    ensures FilledUpTo(t0, s0, p, t, s, n)
  {
    forall sel: nat ensures Entry(p, sel).Some? <==> sel in p { }
  }

  lemma TwoPuts(ts0: map<nat, Table>, ts: map<nat, Table>, t: nat, te: Entries, seen: nat, se: Entries)
    requires t in ts0 && seen in ts0 && t != seen && ts.Keys == ts0.Keys
    requires ts[t] == ts0[t].(entries := te) && ts[seen] == ts0[seen].(entries := se)
    requires forall x :: x in ts0 && x != t && x != seen ==> ts[x] == ts0[x]
    ensures Holding(ts0, ts, t, te, seen, se)
  {
  }

  /** The loop over the class's own table. */
  method Prune(a: Arena, t: nat, seen: nat, n: nat) returns (ghost te: Entries)
    requires a.Valid() && t in a.tables && seen in a.tables && t != seen && a.tables[t].shift == a.tables[seen].shift
    requires Scannable(a.tables[t], n)
    modifies a
    ensures a.Valid() && a.tables == old(a.tables)[t := old(a.tables)[t].(entries := te)] && Scannable(a.tables[t], n)
    ensures PrunedUpTo(old(a.tables)[t].entries, old(a.tables)[seen].entries, te, n)
  {
    ghost var ts0 := a.tables;
    ghost var t0, s := ts0[t].entries, ts0[seen].entries;
    te := t0;
    var idx := 0;
    var m, next := NextEntry(a, t, idx, n);
    assert Entry(t0, 0) == None;
    while m != None
      invariant a.Valid() && a.tables == ts0[t := ts0[t].(entries := te)] && PrunedUpTo(t0, s, te, idx)
      invariant Scannable(a.tables[t], n) && (idx == 0 || idx < n)
      invariant m.Some? ==> idx < next < n && Entry(te, next) == m && forall k :: idx < k < next ==> k !in te
      invariant m.None? ==> forall k :: idx < k ==> k !in te
      decreases n - idx
    {
      PruneStep(t0, s, te, idx, next);
      te := PruneOne(a, t, seen, next, n, ts0, te);
      idx := next;
      m, next := NextEntry(a, t, idx, n);
    }
    PruneDone(t0, s, te, idx, n);
  }

  method PruneOne(a: Arena, t: nat, seen: nat, next: nat, n: nat, ghost ts0: map<nat, Table>, ghost te: Entries) returns (ghost te': Entries)
    requires a.Valid() && t in ts0 && seen in ts0 && t != seen && ts0[t].shift == ts0[seen].shift
    requires a.tables == ts0[t := ts0[t].(entries := te)] && Scannable(a.tables[t], n) && 1 <= next < n
    modifies a
    ensures a.Valid() && a.tables == ts0[t := ts0[t].(entries := te')] && Scannable(a.tables[t], n)
    ensures te' == if Entry(ts0[seen].entries, next) == None then te - {next} else te
  {
    te' := te;
    var had := a.Read(seen, next);
    if had == None {
      a.Insert(t, next, None);
      te' := te - {next};
      assert a.tables == ts0[t := ts0[t].(entries := te')];
    }
  }

  lemma PruneStep(t0: Entries, s: Entries, t: Entries, idx: nat, next: nat)
    requires PrunedUpTo(t0, s, t, idx) && idx < next && forall k :: idx < k < next ==> k !in t
    ensures PrunedUpTo(t0, s, if Entry(s, next) == None then t - {next} else t, next)
  {
    var t' := if Entry(s, next) == None then t - {next} else t;
    forall sel: nat ensures Entry(t', sel) == if sel <= next && Entry(s, sel) == None then None else Entry(t0, sel) {
      assert Entry(t, sel) == if sel <= idx && Entry(s, sel) == None then None else Entry(t0, sel);
    }
  }

  lemma PruneDone(t0: Entries, s: Entries, t: Entries, idx: nat, n: nat)
    requires PrunedUpTo(t0, s, t, idx) && (forall k :: idx < k ==> k !in t) && (idx == 0 || idx < n)
    ensures PrunedUpTo(t0, s, t, n)
  {
  }

  /** `se` holds the first method of each selector in `ms`. */
  ghost predicate Firsts(ms: seq<Method>, se: Entries) {
    forall sel: nat {:trigger Entry(se, sel)} {:trigger First(ms, sel)} :: Entry(se, sel) == First(ms, sel)
  }

  lemma FirstsSnoc(ms: seq<Method>, m: Method, se: Entries)
    requires Firsts(ms, se)
    ensures Firsts(ms + [m], if Entry(se, m.selector) == None then se[m.selector := m] else se)
  {
    var se' := if Entry(se, m.selector) == None then se[m.selector := m] else se;
    forall sel: nat ensures Entry(se', sel) == First(ms + [m], sel) {
      FirstAppend(ms, [m], sel);
      assert Entry(se, sel) == First(ms, sel);
    }
  }

  method CollectFirst(a: Arena, seen: nat, m: Method, n: nat, ghost ts0: map<nat, Table>, ghost shift: nat, ghost se: Entries, ghost done: seq<Method>)
    returns (ghost se': Entries)
    requires a.Valid() && a.tables == ts0[seen := EmptyTable(shift).(entries := se)] && Scannable(a.tables[seen], n) && 1 <= m.selector < n && Firsts(done, se)
    modifies a
    ensures a.Valid() && a.tables == ts0[seen := EmptyTable(shift).(entries := se')] && Scannable(a.tables[seen], n) && Firsts(done + [m], se')
  {
    FirstsSnoc(done, m, se);
    se' := se;
    var had := a.Read(seen, m.selector);
    if had == None {
      a.Insert(seen, m.selector, Some(m));
      se' := se[m.selector := m];
      assert a.tables == ts0[seen := EmptyTable(shift).(entries := se')];
    }
  }

  /** The loop over the method lists: methods met first are kept. */
  method CollectOwn(a: Arena, lists: seq<seq<Method>>, depth: nat, n: nat) returns (seen: nat, ghost se: Entries)
    requires a.Valid() && depth >= 8 && Scannable(EmptyTable(depth - 8), n)
    requires forall m :: m in Flat(lists) ==> 1 <= m.selector < n
    modifies a
    ensures a.Valid() && seen !in old(a.tables) && a.tables == old(a.tables)[seen := EmptyTable(depth - 8).(entries := se)]
    ensures Scannable(a.tables[seen], n) && Firsts(Flat(lists), se)
  {
    ghost var ts0 := a.tables;
    seen := a.New(depth);
    se := map[];
    ghost var done := [];
    for k := 0 to |lists|
      invariant a.Valid() && a.tables == ts0[seen := EmptyTable(depth - 8).(entries := se)] && Scannable(a.tables[seen], n)
      invariant Firsts(done, se) && done == Flat(lists[..k])
    {
      FlatMembers(lists, k);
      ghost var before := done;
      for i := 0 to |lists[k]|
        invariant a.Valid() && a.tables == ts0[seen := EmptyTable(depth - 8).(entries := se)] && Scannable(a.tables[seen], n)
        invariant Firsts(done, se) && done == before + lists[k][..i]
      {
        se := CollectFirst(a, seen, lists[k][i], n, ts0, depth - 8, se, done);
        assert before + lists[k][..i] + [lists[k][i]] == before + lists[k][..i + 1];
        done := done + [lists[k][i]];
      }
      assert lists[k][..|lists[k]|] == lists[k];
      FlatSnoc(lists, k);
    }
    assert lists[..|lists|] == lists;
  }

  /** The part of `rebaseDtableRecursive` before the recursion. */
  method RebaseTable(a: Arena, lists: seq<seq<Method>>, parent: nat, t: nat, depth: nat, n: nat) returns (ghost te: Entries)
    requires a.Valid() && parent in a.tables && t in a.tables && parent != t && depth >= 8
    requires a.tables[parent].shift + 8 == depth == a.tables[t].shift + 8 && Scannable(a.tables[parent], n) && Scannable(a.tables[t], n)
    requires forall m :: m in Flat(lists) ==> 1 <= m.selector < n
    modifies a
    ensures a.Valid() && a.tables == old(a.tables)[t := old(a.tables)[t].(entries := te)] && Scannable(a.tables[t], n)
    ensures Rebased(lists, old(a.tables)[t].entries, old(a.tables)[parent].entries, te)
  {
    ghost var ts0 := a.tables;
    var seen, se := CollectOwn(a, lists, depth, n);
    ghost var te1, se1 := FillFrom(a, parent, t, seen, n);
    te := Prune(a, t, seen, n);
    ScratchGone(ts0, seen, EmptyTable(depth - 8).(entries := se), t, ts0[t].(entries := te1), EmptyTable(depth - 8).(entries := se1), ts0[t].(entries := te));
    a.Destroy(seen);
    RebasedBy(lists, ts0[t].entries, se, ts0[parent].entries, te1, se1, te, n);
  }

  lemma ScratchGone(ts: map<nat, Table>, seen: nat, s0: Table, t: nat, t1: Table, s1: Table, t2: Table)
    requires seen !in ts && t in ts
    ensures ts[seen := s0][t := t1][seen := s1][t := t2] - {seen} == ts[t := t2]
  {
  }

  lemma RebasedBy(lists: seq<seq<Method>>, t0: Entries, s0: Entries, p: Entries, t1: Entries, s1: Entries, t2: Entries, n: nat)
    requires Firsts(Flat(lists), s0) && FilledUpTo(t0, s0, p, t1, s1, n) && PrunedUpTo(t1, s1, t2, n)
    requires forall k :: k in t0 || k in p ==> 1 <= k < n
    requires forall m :: m in Flat(lists) ==> 1 <= m.selector < n
    ensures Rebased(lists, t0, p, t2)
  {
    forall sel: nat ensures Entry(t2, sel) == if Own(lists, sel).Some? then Entry(t0, sel) else Entry(p, sel) {
      assert Entry(s0, sel) == First(Flat(lists), sel);
      assert Entry(t1, sel) == Entry(t1, sel) && Entry(s1, sel) == Entry(s1, sel);
      assert sel > n ==> Entry(t0, sel) == None && Entry(p, sel) == None;
    }
  }
}
