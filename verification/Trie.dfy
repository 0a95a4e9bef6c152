/** The node heap under every sparse array: the layout of `SparseArray`, the
    statically allocated empty nodes, and lookup in its two forms. */
module Trie {
  import opened Basics

  /** A `SparseArray *`: one of the static `EmptyArray`, `EmptyArray8`,
      `EmptyArray16` nodes, or the address of an allocated node. */
  datatype Ref = Blank(shift: nat) | At(id: nat)

  /** One node.  `data` holds values when `shift` is 0 and node pointers otherwise. */
  datatype Cell =
    | Leaf(refCount: int, values: seq<Option<Method>>)
    | Inner(shift: nat, refCount: int, kids: seq<Ref>)

  type Heap = map<nat, Cell>

  /** A pointer stored in slot `.1` of node `.0`. */
  type Edge = (nat, nat)

  const WIDTH := 256

  predicate Level(shift: nat) {
    shift == 8 || shift == 16 || shift == 24
  }

  function Shift(c: Cell): nat {
    match c
    case Leaf(_, _) => 0
    case Inner(s, _, _) => s
  }

  /** `1 << shift`. */
  function Stride(shift: nat): nat {
    if shift == 0 then 1 else if shift == 8 then 0x100 else if shift == 16 then 0x10000 else 0x1000000
  }

  /** The number of indices a node of this shift distinguishes. */
  function Capacity(shift: nat): nat {
    WIDTH * Stride(shift)
  }

  /** `MASK_INDEX`: `(index >> shift) & 0xff`. */
  function Digit(shift: nat, index: nat): nat {
    (index / Stride(shift)) % WIDTH
  }

  /** The contents of the static nodes. */
  function BlankCell(shift: nat): Cell {
    if Level(shift) then Inner(shift, 0, seq(WIDTH, _ => Blank(shift - 8)))
    else Leaf(0, seq(WIDTH, _ => None))
  }

  function Load(h: Heap, r: Ref): Cell {
    match r
    case Blank(s) => BlankCell(s)
    case At(p) => if p in h then h[p] else BlankCell(0)
  }

  /** Lookup one level at a time: the loop that the unrolled form replaces. */
  function Walk(h: Heap, r: Ref, index: nat): Option<Method>
    decreases Shift(Load(h, r))
  {
    match Load(h, r)
    case Leaf(_, vs) => if |vs| == WIDTH then vs[Digit(0, index)] else None
    case Inner(s, _, ks) =>
      if |ks| == WIDTH && Shift(Load(h, ks[Digit(s, index)])) < s
      then Walk(h, ks[Digit(s, index)], index)
      else None
  }

  /** The node of depth 16 that answers for `index` is allocated. */
  predicate Holds(h: Heap, r: Ref, index: nat)
    decreases Shift(Load(h, r))
  {
    r.At? && match Load(h, r)
             case Leaf(_, _) => true
             case Inner(s, _, ks) =>
               s <= 8 || (|ks| == WIDTH && Shift(Load(h, ks[Digit(s, index)])) < s && Holds(h, ks[Digit(s, index)], index))
  }

  /** A pointer that a parent of shift `shift + 8` may hold. */
  predicate RefOk(h: Heap, r: Ref, shift: nat) {
    match r
    case Blank(s) => s == shift
    case At(q) => q in h && Shift(h[q]) == shift
  }

  ghost predicate CellOk(h: Heap, p: nat, dead: set<Edge>)
    requires p in h
  {
    match h[p]
    case Leaf(_, vs) => |vs| == WIDTH
    case Inner(s, _, ks) =>
      && Level(s)
      && |ks| == WIDTH
      && forall i :: 0 <= i < WIDTH ==> (p, i) in dead || RefOk(h, ks[i], s - 8)
  }

  /** Every node is well formed and every pointer outside `dead` is to a node
      that is still allocated and sits exactly one level further down. */
  ghost predicate Typed(h: Heap, dead: set<Edge>) {
    forall p {:trigger CellOk(h, p, dead)} :: p in h ==> CellOk(h, p, dead)
  }

  function Byte(index: nat, k: nat): nat
    requires k < 4
  {
    // (index & (0xff << 8*k)) >> 8*k : keep the bits below the byte's end, drop those below its start.
    if k == 0 then index % 0x100
    else if k == 1 then (index % 0x10000 - index % 0x100) / 0x100
    else if k == 2 then (index % 0x1000000 - index % 0x10000) / 0x10000
    else (index % 0x100000000 - index % 0x1000000) / 0x1000000
  }

  /** `((SparseArray*)r)->data[k]` above the leaves. */
  function Kid(h: Heap, r: Ref, k: nat): (kid: Ref)
    requires Typed(h, {}) && RefOk(h, r, Shift(Load(h, r))) && Level(Shift(Load(h, r))) && k < WIDTH
    ensures RefOk(h, kid, Shift(Load(h, r)) - 8) && Shift(Load(h, kid)) == Shift(Load(h, r)) - 8
  {
    assert r.At? ==> CellOk(h, r.id, {});
    Load(h, r).kids[k]
  }

  /** `((SparseArray*)r)->data[k]` in a leaf. */
  function Val(h: Heap, r: Ref, k: nat): Option<Method>
    requires Typed(h, {}) && RefOk(h, r, 0) && Shift(Load(h, r)) == 0 && k < WIDTH
  {
    assert r.At? ==> CellOk(h, r.id, {});
    Load(h, r).values[k]
  }

  /** `SparseArrayLookup`: the unrolled switch on the root's shift. */
  function Lookup(h: Heap, r: Ref, index: nat): (v: Option<Method>)
    requires Typed(h, {}) && RefOk(h, r, Shift(Load(h, r)))
    requires index < 0x100000000
  {
    assert r.At? ==> CellOk(h, r.id, {});
    match Shift(Load(h, r))
    case 0 => Val(h, r, Byte(index, 0))
    case 8 => Val(h, Kid(h, r, Byte(index, 1)), Byte(index, 0))
    case 16 => Val(h, Kid(h, Kid(h, r, Byte(index, 2)), Byte(index, 1)), Byte(index, 0))
    case _ => Val(h, Kid(h, Kid(h, Kid(h, r, Byte(index, 3)), Byte(index, 2)), Byte(index, 1)), Byte(index, 0))
  }

  lemma Bytes(index: nat)
    requires index < 0x100000000
    ensures Byte(index, 0) == Digit(0, index)
    ensures Byte(index, 1) == Digit(8, index)
    ensures Byte(index, 2) == Digit(16, index)
    ensures Byte(index, 3) == Digit(24, index)
  {
    var q1, q2, q3 := index / 0x100, index / 0x10000, index / 0x1000000;
    assert index % 0x10000 == 0x100 * (q1 % 0x100) + index % 0x100;
    assert index % 0x1000000 == 0x10000 * (q2 % 0x100) + index % 0x10000;
    assert index == 0x1000000 * q3 + index % 0x1000000;
  }

  lemma WalkStep(h: Heap, r: Ref, index: nat)
    requires Typed(h, {}) && RefOk(h, r, Shift(Load(h, r)))
    requires Level(Shift(Load(h, r)))
    ensures Walk(h, r, index) == Walk(h, Kid(h, r, Digit(Shift(Load(h, r)), index)), index)
  {
    assert r.At? ==> CellOk(h, r.id, {});
  }

  lemma WalkLeaf(h: Heap, r: Ref, index: nat)
    requires Typed(h, {}) && RefOk(h, r, 0) && Shift(Load(h, r)) == 0
    ensures Walk(h, r, index) == Val(h, r, Digit(0, index))
  {
    assert r.At? ==> CellOk(h, r.id, {});
  }

  /** The unrolled lookup is the level-by-level loop. */
  lemma UnrolledIsWalk(h: Heap, r: Ref, index: nat)
    requires Typed(h, {}) && RefOk(h, r, Shift(Load(h, r)))
    requires index < 0x100000000
    ensures Lookup(h, r, index) == Walk(h, r, index)
  {
    assert r.At? ==> CellOk(h, r.id, {});
    Bytes(index);
    var n := r;
    while Shift(Load(h, n)) > 0
      invariant RefOk(h, n, Shift(Load(h, n))) && (n.At? ==> CellOk(h, n.id, {}))
      invariant Walk(h, r, index) == Walk(h, n, index) && Lookup(h, r, index) == Lookup(h, n, index)
      decreases Shift(Load(h, n))
    {
      WalkStep(h, n, index);
      n := Kid(h, n, Digit(Shift(Load(h, n)), index));
      assert n.At? ==> CellOk(h, n.id, {});
    }
    WalkLeaf(h, n, index);
  }
}
