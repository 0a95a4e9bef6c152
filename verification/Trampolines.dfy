/** Slots for block trampolines (`block_to_imp.c`), whose free list runs through the headers. */
module Trampolines {
  import opened Basics

  const HEADERS_PER_PAGE := 256
  const HEADER_SIZE := 16

  /** What a header's `block` field points to. */
  datatype Pointer = Null | Slot(index: nat) | Block(id: nat)

  /** `invalid` tells whether `fnptr` is the placeholder. */
  datatype Header = Header(invalid: bool, block: Pointer)

  /** From slot `first` (-1 for none) the free list visits `free`, in this order, and ends. */
  ghost predicate Chain(headers: seq<Header>, first: int, free: seq<nat>)
    decreases |free|
  {
    if free == [] then first == -1
    else
      && first == free[0] && free[0] < |headers| && headers[free[0]].invalid
      && Chain(headers, NextFree(headers[free[0]].block), free[1..])
  }

  function NextFree(p: Pointer): int {
    if p.Slot? then p.index else -1
  }

  /** The free list is acyclic, and a slot is on it exactly when it is not in use. */
  ghost predicate Partition(headers: seq<Header>, first: int, free: seq<nat>) {
    && Chain(headers, first, free) && Distinct(free)
    && forall i {:trigger headers[i]} :: 0 <= i < |headers| ==> (headers[i].invalid <==> i in free) && (!headers[i].invalid ==> headers[i].block.Block?)
  }

  /** A write to a slot off the list does not disturb it. */
  lemma {:induction false} ChainKept(headers: seq<Header>, first: int, free: seq<nat>, i: nat, h: Header)
    requires Chain(headers, first, free) && i < |headers| && i !in free
    ensures Chain(headers[i := h], first, free)
    decreases |free|
  {
    if free != [] { ChainKept(headers, NextFree(headers[free[0]].block), free[1..], i, h); }
  }

  /** What `imp_removeBlock` makes of the headers. */
  function Released(headers: seq<Header>, first: int, i: nat): seq<Header>
    requires i < |headers|
  {
    headers[i := Header(true, if first < 0 then Null else Slot(first))]
  }

  lemma ReleaseKeeps(headers: seq<Header>, first: int, free: seq<nat>, i: nat)
    requires Partition(headers, first, free) && i < |headers| && !headers[i].invalid
    ensures Partition(Released(headers, first, i), i, [i] + free)
  {
    var headers' := Released(headers, first, i);
    ChainKept(headers, first, free, i, headers'[i]);
    assert ([i] + free)[1..] == free;
    assert free == [] ==> first == -1;
    forall k | 0 <= k < |headers'| ensures headers'[k].invalid <==> k in [i] + free { assert headers[k].invalid <==> k in free; }
  }

  /** Releasing a slot twice closes the free list into a cycle: the slots stay a partition
      exactly when the slot was in use. */
  lemma ReleaseExact(headers: seq<Header>, first: int, free: seq<nat>, i: nat)
    requires Partition(headers, first, free) && i < |headers|
    ensures !headers[i].invalid <==> exists free' :: Partition(Released(headers, first, i), i, free')
  {
    if !headers[i].invalid {
      ReleaseKeeps(headers, first, free, i);
    } else {
      forall free' ensures !Partition(Released(headers, first, i), i, free') { NeverEnds(headers, first, free, i, free'); }
    }
  }

  /** The old list leads from `first` to `i`, and the new one from `i` back to `first`. */
  lemma {:induction false} NeverEnds(headers: seq<Header>, first: int, free: seq<nat>, i: nat, free': seq<nat>)
    requires Partition(headers, first, free) && i < |headers| && headers[i].invalid
    ensures !Chain(Released(headers, first, i), i, free')
    decreases |free'|
  {
    var headers' := Released(headers, first, i);
    assert i in free && first == free[0];
    if free' != [] && Chain(headers', first, free'[1..]) {
      var rest := From(headers, first, free, i, headers', free'[1..]);
      NeverEnds(headers, first, free, i, rest);
    }
  }

  /** Two lists that differ only at slot `i` run alike until they reach it. */
  lemma {:induction false} From(headers: seq<Header>, first: int, free: seq<nat>, i: nat, headers': seq<Header>, free': seq<nat>) returns (rest: seq<nat>)
    requires Chain(headers, first, free) && i in free && i < |headers| && |headers'| == |headers|
    requires forall k :: 0 <= k < |headers| && k != i ==> headers'[k] == headers[k]
    requires Chain(headers', first, free')
    ensures |rest| <= |free'| && Chain(headers', i, rest)
    decreases |free|
  {
    if free[0] == i {
      rest := free';
    } else {
      rest := From(headers, NextFree(headers[free[0]].block), free[1..], i, headers', free'[1..]);
    }
  }

  /** `struct trampoline_set`: the one page of trampolines of the pool. */
  class Pool {
    var headers: array<Header>
    var firstFree: int
    ghost var free: seq<nat>

    ghost predicate Valid()
      reads this, headers
    {
      headers.Length == HEADERS_PER_PAGE && Partition(headers[..], firstFree, free)
    }

    /** `alloc_trampolines`. */
    constructor ()
      ensures Valid() && fresh(headers) && |free| == 256
    {
      headers := new Header[HEADERS_PER_PAGE](i => Header(true, if i == HEADERS_PER_PAGE - 1 then Null else Slot(i + 1)));
      firstFree := 0;
      free := Upward(0, HEADERS_PER_PAGE);
      new;
      AllFree(headers[..]);
    }

    /** The trampoline code of slot `i` lies at this offset of the executable page. */
    function Address(i: nat): nat {
      i * HEADER_SIZE
    }

    /** `imp_implementationWithBlock`: a slot is handed out exactly while one is free. */
    method Implement(block: nat) returns (imp: Option<nat>)
      requires Valid()
      modifies this`firstFree, this`free, headers
      ensures Valid() && (imp.None? <==> old(free) == [])
      ensures imp.None? ==> headers[..] == old(headers[..]) && free == old(free)
      ensures imp.Some? ==> exists i :: 0 <= i < HEADERS_PER_PAGE && imp.value == 16 * i && old(headers[i].invalid)
                                        && headers[..] == old(headers[..])[i := Header(false, Block(block))] && free == old(free)[1..]
    {
      ghost var all := headers[..];
      if firstFree == -1 {
        return None;
      }
      var i := firstFree;
      assert i == free[0] && Chain(all, NextFree(all[i].block), free[1..]);
      firstFree := NextFree(headers[i].block);
      assert -1 <= firstFree < HEADERS_PER_PAGE;
      headers[i] := Header(false, Block(block));
      TakeFirst(all, i, free, Header(false, Block(block)));
      assert headers[..] == all[i := Header(false, Block(block))];
      free := free[1..];
      imp := Some(Address(i));
    }

    /** `indexForIMP`. */
    method IndexFor(imp: nat) returns (i: Option<nat>)
      ensures i == if imp < 4096 then Some(imp / 16) else None
      ensures forall k :: 0 <= k < HEADERS_PER_PAGE && imp == Address(k) ==> i == Some(k)
    {
      i := if imp < HEADERS_PER_PAGE * HEADER_SIZE then Some(imp / HEADER_SIZE) else None;
    }

    /** `imp_getBlock`: the block that the implementation was made from. */
    method GetBlock(imp: nat) returns (block: Pointer)
      requires Valid()
      ensures block == if imp < 4096 then headers[imp / 16].block else Null
      ensures forall i :: 0 <= i < HEADERS_PER_PAGE && imp == Address(i) ==> block == headers[i].block
    {
      var idx := IndexFor(imp);
      block := if idx == None then Null else headers[idx.value].block;
    }

    /** `imp_removeBlock`: the slot becomes the first free one.  The pool stays in order exactly
        when the slot was in use. */
    method RemoveBlock(imp: nat) returns (ok: bool)
      requires Valid()
      modifies this`firstFree, this`free, headers
      ensures ok <==> imp < 4096
      ensures Valid() <==> !ok || !old(headers[..])[imp / 16].invalid
      ensures ok ==> free == [imp / 16] + old(free) && headers[..] == Released(old(headers[..]), old(firstFree), imp / 16)
      ensures ok ==> firstFree == imp / 16
      ensures !ok ==> free == old(free) && headers[..] == old(headers[..])
    {
      var idx := IndexFor(imp);
      if idx == None {
        return false;
      }
      ghost var all := headers[..];
      var i := idx.value;
      ReleaseExact(all, firstFree, free, i);
      if !all[i].invalid { ReleaseKeeps(all, firstFree, free, i); }
      assert firstFree == -1 || firstFree >= 0;
      headers[i] := Header(true, if firstFree == -1 then Null else Slot(firstFree));
      assert headers[..] == Released(all, firstFree, i);
      firstFree := i;
      free := [i] + free;
      ok := true;
    }
  }

  /** The slots from `i` to `n`. */
  ghost function Upward(i: nat, n: nat): seq<nat> {
    if i >= n then [] else seq(n - i, k requires 0 <= k => i + k)
  }

  lemma {:induction false} UpwardChain(headers: seq<Header>, i: nat)
    requires i < |headers|
    requires forall k :: 0 <= k < |headers| ==> headers[k] == Header(true, if k == |headers| - 1 then Null else Slot(k + 1))
    ensures Chain(headers, i, Upward(i, |headers|))
    decreases |headers| - i
  {
    assert Upward(i, |headers|)[1..] == Upward(i + 1, |headers|);
    if i + 1 < |headers| { UpwardChain(headers, i + 1); }
  }

  lemma AllFree(headers: seq<Header>)
    requires |headers| > 0
    requires forall k :: 0 <= k < |headers| ==> headers[k] == Header(true, if k == |headers| - 1 then Null else Slot(k + 1))
    ensures Partition(headers, 0, Upward(0, |headers|))
  {
    UpwardChain(headers, 0);
    forall k | 0 <= k < |headers| ensures k in Upward(0, |headers|) { assert Upward(0, |headers|)[k] == k; }
  }

  lemma TakeFirst(headers: seq<Header>, first: nat, free: seq<nat>, h: Header)
    requires Partition(headers, first, free) && free != [] && !h.invalid && h.block.Block? && first < |headers|
    ensures Partition(headers[first := h], NextFree(headers[first].block), free[1..])
  {
    var rest := free[1..];
    forall k | 0 <= k < |rest| ensures rest[k] != first { assert rest[k] == free[k + 1]; }
    ChainKept(headers, NextFree(headers[first].block), rest, first, h);
    forall i | 0 <= i < |headers| ensures i in free <==> i == first || i in rest { assert free == [first] + rest; }
  }
}
