/** Deferred loading of categories (`category_loader.c` on the dynamic array of `buffer.h`). */
module Categories {
  import opened Basics

  const BUFFER_SIZE := 128

  datatype Category = Category(id: nat, className: nat)

  /** The categories whose class is loaded, or those whose class is not, in order. */
  function Select(cats: seq<Category>, loaded: set<nat>, wanted: bool): seq<Category> {
    if cats == [] then []
    else
      var last := cats[|cats| - 1];
      Select(cats[..|cats| - 1], loaded, wanted) + if (last.className in loaded) == wanted then [last] else []
  }

  /** What the slots hold, leaving out those set to `NULL`. */
  function Kept(slots: seq<Option<Category>>): seq<Category> {
    if slots == [] then []
    else Kept(slots[..|slots| - 1]) + if slots[|slots| - 1].Some? then [slots[|slots| - 1].value] else []
  }

  lemma {:induction false} SelectSplits(cats: seq<Category>, loaded: set<nat>)
    ensures multiset(Select(cats, loaded, true)) + multiset(Select(cats, loaded, false)) == multiset(cats)
    ensures forall c :: c in Select(cats, loaded, false) ==> c.className !in loaded
    decreases |cats|
  {
    if cats != [] {
      assert cats == cats[..|cats| - 1] + [cats[|cats| - 1]];
      SelectSplits(cats[..|cats| - 1], loaded);
    }
  }

  lemma SelectSnoc(cats: seq<Category>, k: nat, loaded: set<nat>, wanted: bool)
    requires k < |cats|
    ensures Select(cats[..k + 1], loaded, wanted) == Select(cats[..k], loaded, wanted) + if (cats[k].className in loaded) == wanted then [cats[k]] else []
  {
    assert cats[..k + 1][..k] == cats[..k];
  }

  lemma KeptSnoc(slots: seq<Option<Category>>, k: nat)
    requires k < |slots|
    ensures Kept(slots[..k + 1]) == Kept(slots[..k]) + if slots[k].Some? then [slots[k].value] else []
  {
    assert slots[..k + 1][..k] == slots[..k];
  }

  function Full(cats: seq<Category>): seq<Option<Category>> {
    seq(|cats|, i requires 0 <= i < |cats| => Some(cats[i]))
  }

  lemma {:induction false} KeptAll(cats: seq<Category>)
    ensures Kept(Full(cats)) == cats
    decreases |cats|
  {
    if cats != [] {
      assert Full(cats)[..|cats| - 1] == Full(cats[..|cats| - 1]);
      KeptAll(cats[..|cats| - 1]);
    }
  }

  lemma FullSome(cats: seq<Category>)
    ensures |Full(cats)| == |cats| && forall i :: 0 <= i < |cats| ==> Full(cats)[i].Some?
  {
  }

  /** The slots before `insert` hold what the first `i` of `all` held, and those from `i` on are
      untouched. */
  ghost predicate Compacted(slots: seq<Option<Category>>, all: seq<Option<Category>>, insert: nat, i: nat, done: seq<Category>) {
    && |slots| == |all| && i <= |all| && insert == |done| <= i
    && done == Kept(all[..i]) && slots[..insert] == Full(done) && slots[i..] == all[i..]
  }

  lemma CompactStep(slots: seq<Option<Category>>, all: seq<Option<Category>>, insert: nat, i: nat, done: seq<Category>)
    requires Compacted(slots, all, insert, i, done) && i < |all|
    ensures slots[i] == all[i]
    ensures all[i].None? ==> Compacted(slots, all, insert, i + 1, done)
    ensures all[i].Some? ==> Compacted(slots[insert := all[i]], all, insert + 1, i + 1, done + [all[i].value])
  {
    KeptSnoc(all, i);
    assert slots[i] == slots[i..][0] && all[i] == all[i..][0];
    assert slots[i + 1..] == slots[i..][1..] && all[i + 1..] == all[i..][1..];
    if all[i].Some? {
      var slots' := slots[insert := all[i]];
      assert slots'[..insert + 1] == slots[..insert] + [all[i]];
      assert slots'[i + 1..] == slots[i + 1..];
    }
  }

  lemma CompactDone(slots: seq<Option<Category>>, all: seq<Option<Category>>, insert: nat, i: nat, done: seq<Category>)
    requires Compacted(slots, all, insert, i, done)
    ensures insert <= |slots| && Kept(slots[..insert]) == Kept(all[..i]) && forall k {:trigger slots[k]} :: 0 <= k < insert ==> slots[k].Some?
  {
    KeptAll(done);
    FullSome(done);
    forall k | 0 <= k < insert ensures slots[k].Some? { assert slots[k] == slots[..insert][k]; }
  }

  /** The first doubling of `space` that makes room for slot `k`. */
  function Doubled(space: nat, k: nat): nat
    requires space > 0
    decreases k - space
  {
    if k < space then space else Doubled(2 * space, k)
  }

  class Loader {
    var inline: array<Option<Category>>
    /** The overflow array; of length 0 while there is none. */
    var overflow: array<Option<Category>>
    /** `buffered_objects`. */
    var count: nat
    /** The classes that `objc_getClass` finds. */
    var loaded: set<nat>
    /** The categories attached so far, in order. */
    var attached: seq<Category>

    constructor ()
      ensures Valid() && fresh(inline) && fresh(overflow) && Waiting() == [] && attached == [] && loaded == {}
    {
      inline := new Option<Category>[BUFFER_SIZE](_ => None);
      overflow := new Option<Category>[0];
      count, loaded, attached := 0, {}, [];
    }

    /** The inline array, and after it the overflow array. */
    ghost function Slots(): seq<Option<Category>>
      reads this, inline, overflow
    {
      inline[..] + overflow[..]
    }

    ghost predicate Shaped()
      reads this, inline, overflow
    {
      inline.Length == BUFFER_SIZE && overflow != inline && (overflow.Length == 0 || overflow.Length >= BUFFER_SIZE) && count <= |Slots()|
    }

    /** The categories that wait for their class, in order. */
    ghost function Waiting(): seq<Category>
      requires Shaped()
      reads this, inline, overflow
    {
      Kept(Slots()[..count])
    }

    ghost predicate Valid()
      reads this, inline, overflow
    {
      Shaped() && forall i {:trigger Slots()[i]} :: 0 <= i < count ==> Slots()[i].Some?
    }

    /** `set_buffered_object_at_index`: slots other than `i` keep what they hold. */
    method Set(v: Option<Category>, i: nat)
      requires Shaped()
      modifies this`overflow, inline, overflow
      ensures Shaped() && if i < 128 + old(overflow.Length) then overflow == old(overflow) else fresh(overflow)
      ensures i >= 128 ==> overflow.Length == Doubled(if old(overflow.Length) == 0 then 128 else old(overflow.Length), i - 128)
      ensures |Slots()| >= old(|Slots()|) && i < |Slots()| && Slots()[i] == v
      ensures forall j {:trigger Slots()[j]} :: 0 <= j < old(|Slots()|) && j != i ==> Slots()[j] == old(Slots())[j]
      ensures i < old(|Slots()|) ==> Slots() == old(Slots())[i := v]
    {
      if i < BUFFER_SIZE {
        inline[i] := v;
        return;
      }
      var k := i - BUFFER_SIZE;
      ghost var before := overflow[..];
      if overflow.Length == 0 {
        overflow := new Option<Category>[BUFFER_SIZE](_ => None);
      }
      while k >= overflow.Length
        invariant overflow != inline && overflow.Length >= |before| && BUFFER_SIZE <= overflow.Length && inline[..] == old(inline[..])
        invariant overflow[..|before|] == before && (overflow == old(overflow) || fresh(overflow))
        invariant overflow == old(overflow) || k >= |before|
        invariant Doubled(overflow.Length, k) == Doubled(if |before| == 0 then BUFFER_SIZE else |before|, k)
        decreases k - overflow.Length
      {
        var space := overflow.Length;
        var bigger := new Option<Category>[2 * space];
        forall j | 0 <= j < space { bigger[j] := overflow[j]; }
        overflow := bigger;
      }
      overflow[k] := v;
    }

    /** `buffered_object_at_index`. */
    method At(i: nat) returns (v: Option<Category>)
      requires Shaped() && i < |Slots()|
      ensures v == Slots()[i]
    {
      v := if i < BUFFER_SIZE then inline[i] else overflow[i - BUFFER_SIZE];
    }

    /** One turn of the loop in `compact_buffer`. */
    method CompactOne(i: nat, insert: nat, ghost all: seq<Option<Category>>, ghost done: seq<Category>) returns (insert': nat, ghost done': seq<Category>)
      requires Shaped() && i < |Slots()| && Compacted(Slots(), all, insert, i, done)
      modifies this`overflow, inline, overflow
      ensures Shaped() && (overflow == old(overflow) || fresh(overflow)) && Compacted(Slots(), all, insert', i + 1, done')
    {
      insert', done' := insert, done;
      var c := At(i);
      CompactStep(Slots(), all, insert, i, done);
      if c != None {
        Set(c, insert);
        insert' := insert + 1;
        done' := done + [c.value];
      }
    }

    /** `compact_buffer`: the slots that hold something move up, in order. */
    method Compact()
      requires Shaped()
      modifies this`count, this`overflow, inline, overflow
      ensures Shaped() && (overflow == old(overflow) || fresh(overflow))
      ensures Waiting() == old(Waiting()) && forall i {:trigger Slots()[i]} :: 0 <= i < count ==> Slots()[i].Some?
    {
      var size, insert := count, 0;
      ghost var all := Slots();
      ghost var done := [];
      for i := 0 to size
        invariant Shaped() && count == size <= |all| && (overflow == old(overflow) || fresh(overflow))
        invariant Compacted(Slots(), all, insert, i, done)
      {
        insert, done := CompactOne(i, insert, all, done);
      }
      CompactDone(Slots(), all, insert, size, done);
      count := insert;
    }

    /** `try_load_category`. */
    method TryLoad(cat: Category) returns (ok: bool)
      modifies this`attached
      ensures ok <==> cat.className in loaded
      ensures attached == old(attached) + if ok then [cat] else []
    {
      ok := cat.className in loaded;
      if ok {
        attached := attached + [cat];
      }
    }

    /** `objc_try_load_category`: a category is attached at once, or it waits behind the others. */
    method Offer(cat: Category)
      requires Valid()
      modifies this`attached, this`count, this`overflow, inline, overflow
      ensures Valid() && (overflow == old(overflow) || fresh(overflow))
      ensures if cat.className in loaded then attached == old(attached) + [cat] && Waiting() == old(Waiting())
              else attached == old(attached) && Waiting() == old(Waiting()) + [cat]
    {
      var ok := TryLoad(cat);
      if !ok {
        ghost var before := Slots();
        Set(Some(cat), count);
        KeptSnoc(Slots(), count);
        assert Slots()[..count] == before[..count];
        count := count + 1;
      }
    }

    /** One turn of the loop of `objc_load_buffered_categories`. */
    method LoadOne(i: nat) returns (ok: bool)
      requires Shaped() && i < count && Slots()[i].Some?
      modifies this`attached, this`overflow, inline, overflow
      ensures Shaped() && (overflow == old(overflow) || fresh(overflow))
      ensures ok <==> old(Slots())[i].value.className in loaded
      ensures attached == old(attached) + (if ok then [old(Slots())[i].value] else []) && Slots() == if ok then old(Slots())[i := None] else old(Slots())
    {
      var c := At(i);
      ok := TryLoad(c.value);
      if ok {
        Set(None, i);
      }
    }

    /** That loop: categories whose class is loaded leave their slot empty. */
    method LoadReady() returns (reshuffle: bool)
      requires Valid()
      modifies this`attached, this`overflow, inline, overflow
      ensures Shaped() && (overflow == old(overflow) || fresh(overflow))
      ensures attached == old(attached) + Select(old(Waiting()), loaded, true) && Waiting() == Select(old(Waiting()), loaded, false)
      ensures !reshuffle ==> Slots() == old(Slots())
    {
      reshuffle := false;
      ghost var all, cats := Slots(), Waiting();
      ghost var now := all;
      AllSome(all[..count]);
      assert Turned(all, now, cats, loaded, 0);
      hide Turned, Select;
      for i := 0 to count
        invariant Shaped() && now == Slots() && (overflow == old(overflow) || fresh(overflow)) && (!reshuffle ==> now == all)
        invariant Turned(all, now, cats, loaded, i) && attached == old(attached) + Select(cats[..i], loaded, true)
      {
        TurnNext(all, now, cats, loaded, i);
        var ok := LoadOne(i);
        now := if ok then now[i := None] else now;
        reshuffle := reshuffle || ok;
      }
      assert cats[..count] == cats;
      TurnedAll(all, now, cats, loaded);
    }

    /** `objc_load_buffered_categories`: afterwards no waiting category's class is loaded. */
    method LoadBuffered()
      requires Valid()
      modifies this`attached, this`count, this`overflow, inline, overflow
      ensures Valid() && (overflow == old(overflow) || fresh(overflow))
      ensures attached == old(attached) + Select(old(Waiting()), loaded, true) && Waiting() == Select(old(Waiting()), loaded, false)
      ensures forall c :: c in Waiting() ==> c.className !in loaded
    {
      SelectSplits(Waiting(), loaded);
      var reshuffle := LoadReady();
      if reshuffle {
        Compact();
      }
    }
  }

  /** The state of that loop at slot `i`. */
  ghost predicate Turned(all: seq<Option<Category>>, now: seq<Option<Category>>, cats: seq<Category>, loaded: set<nat>, i: nat) {
    && i <= |cats| <= |all| == |now| && now[i..] == all[i..]
    && Kept(now[..i]) == Select(cats[..i], loaded, false)
    && forall j {:trigger cats[j]} :: 0 <= j < |cats| ==> all[j] == Some(cats[j])
  }

  lemma TurnedAll(all: seq<Option<Category>>, now: seq<Option<Category>>, cats: seq<Category>, loaded: set<nat>)
    requires Turned(all, now, cats, loaded, |cats|)
    ensures |cats| <= |now| && Kept(now[..|cats|]) == Select(cats, loaded, false)
  {
    assert cats[..|cats|] == cats;
  }

  lemma TurnNext(all: seq<Option<Category>>, now: seq<Option<Category>>, cats: seq<Category>, loaded: set<nat>, i: nat)
    requires Turned(all, now, cats, loaded, i) && i < |cats|
    ensures now[i] == Some(cats[i])
    ensures Select(cats[..i + 1], loaded, true) == Select(cats[..i], loaded, true) + if cats[i].className in loaded then [cats[i]] else []
    ensures Turned(all, if cats[i].className in loaded then now[i := None] else now, cats, loaded, i + 1)
  {
    var now' := if cats[i].className in loaded then now[i := None] else now;
    assert now[i] == now[i..][0] && all[i] == all[i..][0] && all[i] == Some(cats[i]);
    SelectSnoc(cats, i, loaded, true);
    SelectSnoc(cats, i, loaded, false);
    KeptSnoc(now', i);
    assert now'[..i] == now[..i];
    assert now'[i + 1..] == now[i + 1..] == now[i..][1..] && all[i + 1..] == all[i..][1..];
  }

  lemma {:induction false} AllSome(slots: seq<Option<Category>>)
    requires forall i :: 0 <= i < |slots| ==> slots[i].Some?
    ensures |Kept(slots)| == |slots| && forall i :: 0 <= i < |slots| ==> slots[i] == Some(Kept(slots)[i])
    decreases |slots|
  {
    if slots != [] { AllSome(slots[..|slots| - 1]); }
  }
}
