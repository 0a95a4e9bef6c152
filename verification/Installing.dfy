/** What `installMethodInDtable` does to the tables of a class and its subclasses,
    and when the result agrees with the method lists again. */
module Installing {
  import opened Basics
  import opened Hierarchy
  import opened MethodLookup
  import Enumeration

  /** The recursion over subclasses reaches `d`: from `c` down, every table holds `was`. */
  ghost predicate Hit(cls: Store, rank: map<nat, nat>, tabs: map<nat, Entries>, sel: nat, was: Option<Method>, c: nat, d: nat)
    requires Ranked(cls, rank) && d in cls
    decreases if d in rank then rank[d] else 0
  {
    assert SuperOk(cls, rank, d);
    d == c || (d in tabs && Entry(tabs[d], sel) == was && cls[d].super.Some?
               && Hit(cls, rank, tabs, sel, was, c, cls[d].super.value))
  }

  /** The three tests before anything is written. */
  predicate Replaces(was: Option<Method>, m: Method, toReplace: Option<Method>, replaceExisting: bool) {
    && (replaceExisting ==> toReplace == was)
    && (!replaceExisting ==> was == None)
    && !(was.Some? && was.value.imp == m.imp)
  }

  /** With tables that agree, the recursion reaches exactly the classes that inherit. */
  lemma {:induction false} HitInherits(cls: Store, rank: map<nat, nat>, methods: MethodLists, tabs: map<nat, Entries>, sel: nat, c: nat, d: nat)
    requires Known(cls, rank, methods) && OneOwner(methods) && Agree(cls, rank, methods, tabs) && SupersFirst(cls, tabs)
    requires c in tabs && d in tabs && c in cls && d in cls
    ensures Hit(cls, rank, tabs, sel, Entry(tabs[c], sel), c, d) <==> Inherits(cls, rank, methods, d, c, sel)
    decreases if d in rank then rank[d] else 0
  {
    assert SuperOk(cls, rank, d) && AgreeAt(cls, rank, methods, tabs, c) && AgreeAt(cls, rank, methods, tabs, d);
    if d != c && cls[d].super.Some? {
      var s := cls[d].super.value;
      HitInherits(cls, rank, methods, tabs, sel, c, s);
      if Inherits(cls, rank, methods, s, c, sel) {
        InheritsWalk(cls, rank, methods, s, c, sel);
        assert Desc(cls, rank, d, c);
        InheritsExactly(cls, rank, methods, d, c, sel);
      }
    }
  }

  /** `collectMethodsForMethodListToSparseArray` on one list: a later method replaces an earlier. */
  function Collect(list: seq<Method>): (t: Entries)
    ensures forall sel :: sel in t ==> t[sel] in list && t[sel].selector == sel
    ensures forall m :: m in list ==> m.selector in t
  {
    if list == [] then map[]
    else
      var last := list[|list| - 1];
      assert list == list[..|list| - 1] + [last];
      Collect(list[..|list| - 1])[last.selector := last]
  }

  /** The entry that `d` holds for `sel` after the batch has been installed in `c`. */
  ghost function BatchEntry(cls: Store, rank: map<nat, nat>, tabs: map<nat, Entries>, c: nat, batch: Entries, inh: Entries, d: nat, sel: nat): Option<Method>
    requires Ranked(cls, rank) && c in tabs && d in tabs
  {
    if sel in batch && Replaces(Entry(tabs[c], sel), batch[sel], Entry(inh, sel), true)
       && d in cls && Hit(cls, rank, tabs, sel, Entry(tabs[c], sel), c, d)
    then Some(batch[sel])
    else Entry(tabs[d], sel)
  }

  ghost predicate BatchInstalled(cls: Store, rank: map<nat, nat>, tabs: map<nat, Entries>, c: nat, batch: Entries, inh: Entries, tabs': map<nat, Entries>)
    requires Ranked(cls, rank) && c in tabs
  {
    && tabs'.Keys == tabs.Keys
    && forall d, sel: nat {:trigger Entry(tabs'[d], sel)} :: d in tabs ==>
         Entry(tabs'[d], sel) == BatchEntry(cls, rank, tabs, c, batch, inh, d, sel)
  }

  /** New structures: none is in any list yet, and the list has no structure twice. */
  ghost predicate Fresh(methods: MethodLists, list: seq<Method>) {
    && NoRepeats(list)
    && forall d, m {:trigger m in Flat(methods[d])} :: d in methods && m in list ==> m !in Flat(methods[d])
  }

  function Prepended(methods: MethodLists, c: nat, list: seq<Method>): MethodLists
    requires c in methods
  {
    methods[c := [list] + methods[c]]
  }

  lemma OwnPrepended(methods: MethodLists, c: nat, list: seq<Method>, d: nat, sel: nat)
    requires c in methods && d in methods
    ensures Own(Prepended(methods, c, list)[d], sel) ==
            if d == c && First(list, sel).Some? then First(list, sel) else Own(methods[d], sel)
  {
    if d == c {
      assert ([list] + methods[c])[1..] == methods[c];
      FirstAppend(list, Flat(methods[c]), sel);
    }
  }

  lemma {:induction false} WalkPrepended(cls: Store, rank: map<nat, nat>, methods: MethodLists, c: nat, list: seq<Method>, d: nat, sel: nat)
    requires Known(cls, rank, methods) && c in cls && d in cls
    ensures Walk(cls, rank, Prepended(methods, c, list), d, sel) ==
            if First(list, sel).Some? && Inherits(cls, rank, methods, d, c, sel) then First(list, sel)
            else Walk(cls, rank, methods, d, sel)
    decreases if d in rank then rank[d] else 0
  {
    assert SuperOk(cls, rank, d);
    OwnPrepended(methods, c, list, d, sel);
    if cls[d].super.Some? { WalkPrepended(cls, rank, methods, c, list, cls[d].super.value, sel); }
  }

  ghost function InhOf(cls: Store, tabs: map<nat, Entries>, c: nat): Entries
    requires c in cls
  {
    match cls[c].super
    case None => map[]
    case Some(s) => if s in tabs then tabs[s] else map[]
  }

  /** The entries of a batch that an enumeration of its table comes to. */
  function Part(batch: Entries, depth: nat): (part: Entries)
    ensures forall sel: nat :: Entry(part, sel) == if Reached(depth, sel) then Entry(batch, sel) else None
  {
    map sel | sel in batch && Reached(depth, sel) :: batch[sel]
  }

  /** `SparseArrayNext` comes to this selector if its table of depth 16 is the only one. */
  predicate Reached(depth: nat, sel: nat) {
    depth == 8 || (0 < sel % Enumeration.BLOCK < Enumeration.Limit(8) && sel / Enumeration.BLOCK < 255)
  }

  ghost predicate AllReached(depth: nat, list: seq<Method>) {
    forall m :: m in list ==> Reached(depth, m.selector)
  }

  /** What a caller can check before adding `list` to `c`: the class does not provide
      any of the selectors yet, no selector occurs with two methods, and no method has
      the implementation of the method it would override. */
  ghost predicate Addable(own: seq<seq<Method>>, list: seq<Method>, inh: Entries) {
    forall m :: m in list ==>
      && Own(own, m.selector) == None
      && First(list, m.selector) == Some(Collect(list)[m.selector])
      && !(m.selector in inh && inh[m.selector].imp == Collect(list)[m.selector].imp)
  }

  ghost predicate InAgreement(cls: Store, rank: map<nat, nat>, methods: MethodLists, tabs: map<nat, Entries>) {
    Known(cls, rank, methods) && OneOwner(methods) && Agree(cls, rank, methods, tabs) && SupersFirst(cls, tabs)
  }

  lemma InheritedEntry(cls: Store, rank: map<nat, nat>, methods: MethodLists, tabs: map<nat, Entries>, c: nat, sel: nat)
    requires InAgreement(cls, rank, methods, tabs) && c in tabs
    ensures c in cls
    ensures Entry(tabs[c], sel) == if Own(methods[c], sel).Some? then Own(methods[c], sel) else Entry(InhOf(cls, tabs, c), sel)
    ensures Entry(InhOf(cls, tabs, c), sel).Some? ==>
              exists a :: a in cls && a != c && Entry(InhOf(cls, tabs, c), sel).value in Flat(methods[a])
  {
    assert AgreeAt(cls, rank, methods, tabs, c) && SuperOk(cls, rank, c);
    if cls[c].super.Some? {
      var s := cls[c].super.value;
      assert AgreeAt(cls, rank, methods, tabs, s);
      if Entry(tabs[s], sel).Some? {
        WalkOwner(cls, rank, methods, s, sel);
        var a :| a in cls && Desc(cls, rank, s, a) && Entry(tabs[s], sel).value in Flat(methods[a]);
        DescUp(cls, rank, s, a);
      }
    }
  }

  lemma AddedAgrees(cls: Store, rank: map<nat, nat>, methods: MethodLists, tabs: map<nat, Entries>, c: nat, list: seq<Method>,
                    tabs': map<nat, Entries>, d: nat, sel: nat)
    requires InAgreement(cls, rank, methods, tabs) && c in tabs && d in tabs && c in cls && d in cls
    requires Addable(methods[c], list, InhOf(cls, tabs, c))
    requires BatchInstalled(cls, rank, tabs, c, Collect(list), InhOf(cls, tabs, c), tabs')
    ensures Entry(tabs'[d], sel) == Walk(cls, rank, Prepended(methods, c, list), d, sel)
  {
    WalkPrepended(cls, rank, methods, c, list, d, sel);
    HitInherits(cls, rank, methods, tabs, sel, c, d);
    assert AgreeAt(cls, rank, methods, tabs, d);
    InheritedEntry(cls, rank, methods, tabs, c, sel);
    if sel in Collect(list) {
      assert Collect(list)[sel] in list;
    } else {
      assert First(list, sel) == None;
    }
  }

  lemma AddedDisagrees(cls: Store, rank: map<nat, nat>, methods: MethodLists, tabs: map<nat, Entries>, c: nat, list: seq<Method>,
                       tabs': map<nat, Entries>, m: Method)
    requires InAgreement(cls, rank, methods, tabs) && c in tabs && c in cls && Fresh(methods, list) && m in list
    requires BatchInstalled(cls, rank, tabs, c, Collect(list), InhOf(cls, tabs, c), tabs')
    requires Entry(tabs'[c], m.selector) == Walk(cls, rank, Prepended(methods, c, list), c, m.selector)
    ensures Own(methods[c], m.selector) == None && First(list, m.selector) == Some(Collect(list)[m.selector])
    ensures !(m.selector in InhOf(cls, tabs, c) && InhOf(cls, tabs, c)[m.selector].imp == Collect(list)[m.selector].imp)
  {
    var sel := m.selector;
    WalkPrepended(cls, rank, methods, c, list, c, sel);
    InheritedEntry(cls, rank, methods, tabs, c, sel);
    assert First(list, sel).Some? && First(list, sel).value in list;
    assert Entry(tabs'[c], sel) == BatchEntry(cls, rank, tabs, c, Collect(list), InhOf(cls, tabs, c), c, sel);
  }

  /** Adding a method list to a class whose tables agree leaves tables that agree exactly when
      the list was addable and the enumeration comes to all of it. */
  lemma AddExact(cls: Store, rank: map<nat, nat>, methods: MethodLists, tabs: map<nat, Entries>, c: nat, list: seq<Method>, depth: nat, tabs': map<nat, Entries>)
    requires InAgreement(cls, rank, methods, tabs) && c in tabs && c in cls && Fresh(methods, list)
    requires BatchInstalled(cls, rank, tabs, c, Part(Collect(list), depth), InhOf(cls, tabs, c), tabs')
    ensures Agree(cls, rank, Prepended(methods, c, list), tabs') <==> Addable(methods[c], list, InhOf(cls, tabs, c)) && AllReached(depth, list)
  {
    if AllReached(depth, list) {
      PartAll(list, depth);
      AddWhole(cls, rank, methods, tabs, c, list, tabs');
    } else {
      var m :| m in list && !Reached(depth, m.selector);
      Unreached(cls, rank, methods, tabs, c, list, depth, tabs', m);
    }
  }

  lemma PartAll(list: seq<Method>, depth: nat)
    requires AllReached(depth, list)
    ensures Part(Collect(list), depth) == Collect(list)
  {
    forall sel | sel in Collect(list) ensures Reached(depth, sel) { assert Collect(list)[sel] in list; }
  }

  /** What decides, before a list is installed in a class, whether its method for `sel` will enter the
      class's table: the enumeration comes to it, the class does not provide one yet, and it does not
      have the implementation that the class inherits. */
  ghost predicate Installs(own: seq<seq<Method>>, list: seq<Method>, depth: nat, inh: Entries, sel: nat) {
    && sel in Collect(list) && Reached(depth, sel) && Own(own, sel) == None
    && !(sel in inh && inh[sel].imp == Collect(list)[sel].imp)
  }

  /** Every such method is in the tables of the class and of those that inherit the selector from it;
      every other entry is the old one. */
  ghost predicate ListInstalled(cls: Store, rank: map<nat, nat>, methods: MethodLists, tabs: map<nat, Entries>, c: nat, list: seq<Method>, depth: nat,
                                tabs': map<nat, Entries>)
    requires Known(cls, rank, methods) && c in cls
  {
    && tabs'.Keys == tabs.Keys
    && forall d, sel: nat {:trigger Entry(tabs'[d], sel)} :: d in tabs ==>
         && d in cls
         && Entry(tabs'[d], sel) ==
              if Installs(methods[c], list, depth, InhOf(cls, tabs, c), sel) && Inherits(cls, rank, methods, d, c, sel)
              then Some(Collect(list)[sel]) else Entry(tabs[d], sel)
  }

  /** Among tables that agree, this is what installing the list comes to, addable or not. */
  lemma ListMeans(cls: Store, rank: map<nat, nat>, methods: MethodLists, tabs: map<nat, Entries>, c: nat, list: seq<Method>, depth: nat, tabs': map<nat, Entries>)
    requires InAgreement(cls, rank, methods, tabs) && c in tabs && c in cls
    requires BatchInstalled(cls, rank, tabs, c, Part(Collect(list), depth), InhOf(cls, tabs, c), tabs')
    ensures ListInstalled(cls, rank, methods, tabs, c, list, depth, tabs')
  {
    forall d, sel: nat | d in tabs
      ensures d in cls && Entry(tabs'[d], sel) == if Installs(methods[c], list, depth, InhOf(cls, tabs, c), sel) && Inherits(cls, rank, methods, d, c, sel)
                                                  then Some(Collect(list)[sel]) else Entry(tabs[d], sel)
    {
      ListEntry(cls, rank, methods, tabs, c, list, depth, d, sel);
      assert Entry(tabs'[d], sel) == BatchEntry(cls, rank, tabs, c, Part(Collect(list), depth), InhOf(cls, tabs, c), d, sel);
    }
  }

  lemma ListEntry(cls: Store, rank: map<nat, nat>, methods: MethodLists, tabs: map<nat, Entries>, c: nat, list: seq<Method>, depth: nat, d: nat, sel: nat)
    requires InAgreement(cls, rank, methods, tabs) && c in tabs && c in cls && d in tabs
    ensures d in cls
    ensures BatchEntry(cls, rank, tabs, c, Part(Collect(list), depth), InhOf(cls, tabs, c), d, sel) ==
            if Installs(methods[c], list, depth, InhOf(cls, tabs, c), sel) && Inherits(cls, rank, methods, d, c, sel)
            then Some(Collect(list)[sel]) else Entry(tabs[d], sel)
  {
    var batch := Part(Collect(list), depth);
    assert Entry(batch, sel) == if Reached(depth, sel) then Entry(Collect(list), sel) else None;
    InheritedEntry(cls, rank, methods, tabs, c, sel);
    HitInherits(cls, rank, methods, tabs, sel, c, d);
  }

  /** A method to which the enumeration does not come is in the lists and in no table. */
  lemma Unreached(cls: Store, rank: map<nat, nat>, methods: MethodLists, tabs: map<nat, Entries>, c: nat, list: seq<Method>, depth: nat,
                  tabs': map<nat, Entries>, m: Method)
    requires InAgreement(cls, rank, methods, tabs) && c in tabs && c in cls && Fresh(methods, list) && m in list && !Reached(depth, m.selector)
    requires BatchInstalled(cls, rank, tabs, c, Part(Collect(list), depth), InhOf(cls, tabs, c), tabs')
    ensures forall d :: d in tabs ==> d in tabs' && Entry(tabs'[d], m.selector) == Entry(tabs[d], m.selector)
    ensures !Agree(cls, rank, Prepended(methods, c, list), tabs')
  {
    var sel, batch, inh := m.selector, Part(Collect(list), depth), InhOf(cls, tabs, c);
    assert Entry(batch, sel) == None;
    forall d | d in tabs ensures d in tabs' && Entry(tabs'[d], sel) == Entry(tabs[d], sel) {
      assert Entry(tabs'[d], sel) == BatchEntry(cls, rank, tabs, c, batch, inh, d, sel);
    }
    WalkPrepended(cls, rank, methods, c, list, c, sel);
    InheritedEntry(cls, rank, methods, tabs, c, sel);
    assert First(list, sel).Some? && First(list, sel).value in list;
    assert !AgreeAt(cls, rank, Prepended(methods, c, list), tabs', c);
  }

  lemma AddWhole(cls: Store, rank: map<nat, nat>, methods: MethodLists, tabs: map<nat, Entries>, c: nat, list: seq<Method>, tabs': map<nat, Entries>)
    requires InAgreement(cls, rank, methods, tabs) && c in tabs && c in cls && Fresh(methods, list)
    requires BatchInstalled(cls, rank, tabs, c, Collect(list), InhOf(cls, tabs, c), tabs')
    ensures Agree(cls, rank, Prepended(methods, c, list), tabs') <==> Addable(methods[c], list, InhOf(cls, tabs, c))
  {
    var methods' := Prepended(methods, c, list);
    if Addable(methods[c], list, InhOf(cls, tabs, c)) {
      forall d | d in tabs' && d in cls ensures AgreeAt(cls, rank, methods', tabs', d) {
        forall sel: nat { AddedAgrees(cls, rank, methods, tabs, c, list, tabs', d, sel); }
      }
    }
    if Agree(cls, rank, methods', tabs') {
      assert AgreeAt(cls, rank, methods', tabs', c);
      forall m | m in list
        ensures Own(methods[c], m.selector) == None && First(list, m.selector) == Some(Collect(list)[m.selector])
        ensures !(m.selector in InhOf(cls, tabs, c) && InhOf(cls, tabs, c)[m.selector].imp == Collect(list)[m.selector].imp)
      {
        AddedDisagrees(cls, rank, methods, tabs, c, list, tabs', m);
      }
    }
  }
}
